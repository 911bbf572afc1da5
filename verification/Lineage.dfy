/** Resolution chains, their history, and what the masks say between them. */
module Lineage {
  import opened Core
  import opened Versions

  const ROOT: Name := "main"

  /** For every branch, its full chain at seq 0, 1, 2, ... up to its head. */
  type History = map<Name, seq<Chain>>

  ghost predicate Known(h: History, b: Name, s: int) {
    b in h && 0 <= s < |h[b]|
  }

  /** The chain is one that was in force at some point of the history. */
  ghost predicate Recorded(h: History, chain: Chain) {
    && chain != []
    && Known(h, chain[0].branch, chain[0].upto)
    && h[chain[0].branch][chain[0].upto] == chain
  }

  /** The same branches in the same order, each seen no later. */
  ghost predicate Below(x: Chain, y: Chain) {
    && |x| == |y|
    && forall i :: 0 <= i < |x| ==> x[i].branch == y[i].branch && x[i].upto <= y[i].upto
  }

  /** The chain of a branch at a seq: the branch alone when it is the root, and
      otherwise the branch over a recorded chain. */
  ghost predicate Linked(h: History, b: Name, s: int)
    requires Known(h, b, s)
  {
    && h[b][s] != []
    && h[b][s][0] == Segment(b, s)
    && if b == ROOT then |h[b][s]| == 1 else |h[b][s]| > 1 && Recorded(h, h[b][s][1..])
  }

  /** Every recorded chain is the branch itself over a recorded chain of its
      parent; only the root branch has no parent; and a branch's view of each of
      its ancestors only moves forward. */
  ghost predicate WellFormed(h: History) {
    && ROOT in h
    && (forall b :: b in h ==> h[b] != [])
    && (forall b, s {:trigger Linked(h, b, s)} :: Known(h, b, s) ==> Linked(h, b, s))
    && (forall b, u, w {:trigger Below(h[b][u], h[b][w])} :: Known(h, b, u) && Known(h, b, w) && u <= w ==> Below(h[b][u], h[b][w]))
  }

  ghost function Heads(h: History): map<Name, int> {
    map b | b in h :: |h[b]| - 1
  }

  lemma {:induction false} RecordedTail(h: History, chain: Chain)
    requires WellFormed(h) && Recorded(h, chain)
    ensures chain[0].branch != ROOT ==> |chain| > 1 && Recorded(h, chain[1..])
    ensures |chain| == 1 <==> chain[0].branch == ROOT
  {
    assert Linked(h, chain[0].branch, chain[0].upto);
  }

  lemma {:induction false} RecordedSuffix(h: History, chain: Chain, i: nat)
    requires WellFormed(h) && Recorded(h, chain) && i < |chain|
    ensures Recorded(h, chain[i..])
    decreases i
  {
    if i == 0 {
      assert chain[0..] == chain;
    } else {
      RecordedTail(h, chain);
      RecordedSuffix(h, chain[1..], i - 1);
      assert chain[1..][i - 1..] == chain[i..];
    }
  }

  /** A branch sits at the same distance from the root in every chain. */
  lemma {:induction false} SameDepth(h: History, x: Chain, i: nat, y: Chain, j: nat)
    requires WellFormed(h) && Recorded(h, x) && Recorded(h, y)
    requires i < |x| && j < |y| && x[i].branch == y[j].branch
    ensures |x| - i == |y| - j
  {
    RecordedSuffix(h, x, i);
    RecordedSuffix(h, y, j);
    var b, u, w := x[i].branch, x[i].upto, y[j].upto;
    assert Known(h, b, u) && Known(h, b, w);
    assert Below(h[b][u], h[b][w]) || Below(h[b][w], h[b][u]);
  }

  // ----- reading recorded chains in a store that has moved on -----

  lemma {:induction false} LiveUnmoved(rows: seq<Version>, rows': seq<Version>, h: History, chain: Chain, b: Name, n: int, pk: PK)
    requires WellFormed(h) && Recorded(h, chain) && SameBelow(rows, rows', b, n)
    requires b in h ==> |h[b]| <= n
    ensures Live(rows', chain, pk) == Live(rows, chain, pk)
    decreases |chain|
  {
    assert At(rows', chain[0].branch, chain[0].upto, pk) == At(rows, chain[0].branch, chain[0].upto, pk);
    RecordedTail(h, chain);
    if chain[0].branch != ROOT {
      LiveUnmoved(rows, rows', h, chain[1..], b, n, pk);
    } else {
      assert chain[1..] == [];
    }
  }

  /** History does not move: a chain recorded before a commit resolves to the same
      table after it. */
  lemma {:induction false} ViewUnmoved(rows: seq<Version>, rows': seq<Version>, h: History, chain: Chain, b: Name, n: int)
    requires WellFormed(h) && Recorded(h, chain) && SameBelow(rows, rows', b, n)
    requires b in h ==> |h[b]| <= n
    ensures View(rows', chain) == View(rows, chain)
  {
    forall pk {
      LiveUnmoved(rows, rows', h, chain, b, n, pk);
    }
    SameView(rows, chain, rows', chain);
  }

  // ----- masks between two chains -----

  function Min(x: int, y: int): int { if x <= y then x else y }
  function Max(x: int, y: int): int { if x <= y then y else x }

  /** Segment by segment, the column is in a mask written between the two views. */
  ghost predicate Between(rows: seq<Version>, x: Chain, y: Chain, pk: PK, c: ColID) {
    exists k ::
      && 0 <= k < |x| && k < |y|
      && Touched(rows, x[k].branch, Min(x[k].upto, y[k].upto), Max(x[k].upto, y[k].upto), pk, c)
  }

  /** Wherever the branch's view differs from what it inherits, its own masks say so. */
  ghost predicate OverlayMasked(rows: seq<Version>, chain: Chain) {
    && chain != []
    && forall pk, c :: Cell(View(rows, chain), pk, c) != Cell(View(rows, chain[1..]), pk, c)
         ==> Touched(rows, chain[0].branch, 0, chain[0].upto, pk, c)
  }

  /** Wherever two views of one branch differ, the masks between them say so. */
  ghost predicate ChangeMasked(rows: seq<Version>, x: Chain, y: Chain) {
    forall pk, c :: Cell(View(rows, x), pk, c) != Cell(View(rows, y), pk, c) ==> Between(rows, x, y, pk, c)
  }

  ghost predicate Masked(rows: seq<Version>, h: History) {
    && (forall b, s {:trigger OverlayMasked(rows, h[b][s])} :: Known(h, b, s) ==> OverlayMasked(rows, h[b][s]))
    && (forall b, u, w {:trigger ChangeMasked(rows, h[b][u], h[b][w])} ::
          Known(h, b, u) && Known(h, b, w) && u <= w ==> ChangeMasked(rows, h[b][u], h[b][w]))
  }

  lemma {:induction false} TouchedWider(rows: seq<Version>, b: Name, lo: int, hi: int, lo': int, hi': int, pk: PK, c: ColID)
    requires Touched(rows, b, lo, hi, pk, c) && lo' <= lo && hi <= hi'
    ensures Touched(rows, b, lo', hi', pk, c)
  {
    var i :| 0 <= i < |rows| && Committed(rows[i], b, pk) && lo < rows[i].from <= hi && c in rows[i].changed;
    assert Committed(rows[i], b, pk) && lo' < rows[i].from <= hi' && c in rows[i].changed;
  }

  /** Widening the range between two views at either end keeps every mask bit. */
  lemma {:induction false} BetweenWider(rows: seq<Version>, x: Chain, y: Chain, z: Chain, pk: PK, c: ColID)
    requires Below(x, y) && Below(y, z)
    requires Between(rows, x, y, pk, c) || Between(rows, y, z, pk, c)
    ensures Between(rows, x, z, pk, c)
  {
    if Between(rows, x, y, pk, c) {
      var k :| 0 <= k < |x| && k < |y| && Touched(rows, x[k].branch, Min(x[k].upto, y[k].upto), Max(x[k].upto, y[k].upto), pk, c);
      assert x[k].upto <= y[k].upto <= z[k].upto;
      TouchedWider(rows, x[k].branch, x[k].upto, y[k].upto, x[k].upto, z[k].upto, pk, c);
    } else {
      var k :| 0 <= k < |y| && k < |z| && Touched(rows, y[k].branch, Min(y[k].upto, z[k].upto), Max(y[k].upto, z[k].upto), pk, c);
      assert x[k].upto <= y[k].upto <= z[k].upto && x[k].branch == y[k].branch;
      TouchedWider(rows, y[k].branch, y[k].upto, z[k].upto, x[k].upto, z[k].upto, pk, c);
    }
  }

  // ----- the mask the engine accumulates (maskSince) -----

  ghost predicate Sees(chain: Chain, b: Name) {
    exists i :: 0 <= i < |chain| && chain[i].branch == b
  }

  /** baseUpper: what each branch of the base chain covered; a later entry wins. */
  function Upper(chain: Chain): map<Name, int>
    decreases |chain|
  {
    if chain == [] then map[]
    else Upper(chain[..|chain| - 1])[chain[|chain| - 1].branch := chain[|chain| - 1].upto]
  }

  /** What one segment of the current chain contributes: the range between the two
      views in either direction, or everything when the base cannot see it. */
  ghost predicate SegmentMask(rows: seq<Version>, seg: Segment, upper: map<Name, int>, pk: PK, c: ColID) {
    if seg.branch in upper
    then Touched(rows, seg.branch, Min(upper[seg.branch], seg.upto), Max(upper[seg.branch], seg.upto), pk, c)
    else Touched(rows, seg.branch, 0, seg.upto, pk, c)
  }

  ghost predicate MaskSince(rows: seq<Version>, now: Chain, base: Chain, pk: PK, c: ColID) {
    || (exists i :: 0 <= i < |now| && SegmentMask(rows, now[i], Upper(base), pk, c))
    || (exists j :: 0 <= j < |base| && !Sees(now, base[j].branch) && Touched(rows, base[j].branch, 0, base[j].upto, pk, c))
  }

  lemma {:induction false} UpperIs(chain: Chain)
    requires forall i, j :: 0 <= i < j < |chain| ==> chain[i].branch != chain[j].branch
    ensures forall b :: b in Upper(chain) <==> Sees(chain, b)
    ensures forall i :: 0 <= i < |chain| ==> chain[i].branch in Upper(chain) && Upper(chain)[chain[i].branch] == chain[i].upto
    decreases |chain|
  {
    if chain != [] {
      var n := |chain| - 1;
      var init := chain[..n];
      assert forall i :: 0 <= i < n ==> init[i] == chain[i];
      UpperIs(init);
      forall b
        ensures b in Upper(chain) <==> Sees(chain, b)
      {
        if Sees(init, b) {
          var i :| 0 <= i < |init| && init[i].branch == b;
          assert chain[i].branch == b;
        }
        if Sees(chain, b) && b != chain[n].branch {
          var i :| 0 <= i < |chain| && chain[i].branch == b;
          assert init[i].branch == b;
        }
        assert chain[n].branch == b ==> Sees(chain, b);
      }
    }
  }

  // ----- what exactly is accumulated -----

  /** The chain's view takes the version's seq on its branch in. */
  ghost predicate Within(chain: Chain, v: Version) {
    exists i :: 0 <= i < |chain| && chain[i].branch == v.branch && v.from <= chain[i].upto
  }

  /** The version marks the column of the key, and is in one view's past and not in the
      other's. */
  ghost predicate Marks(v: Version, now: Chain, base: Chain, pk: PK, c: ColID) {
    Committed(v, v.branch, pk) && c in v.changed && Within(now, v) != Within(base, v)
  }

  lemma {:induction false} WithinIs(chain: Chain, v: Version)
    requires forall i, j :: 0 <= i < j < |chain| ==> chain[i].branch != chain[j].branch
    ensures Within(chain, v) <==> v.branch in Upper(chain) && v.from <= Upper(chain)[v.branch]
  {
    UpperIs(chain);
    if v.branch in Upper(chain) {
      var i :| 0 <= i < |chain| && chain[i].branch == v.branch;
      assert v.from <= Upper(chain)[v.branch] <==> v.from <= chain[i].upto;
    }
  }

  lemma {:induction false} MarkIsMask(rows: seq<Version>, now: Chain, base: Chain, pk: PK, c: ColID, k: int)
    requires forall i, j :: 0 <= i < j < |now| ==> now[i].branch != now[j].branch
    requires forall i, j :: 0 <= i < j < |base| ==> base[i].branch != base[j].branch
    requires 0 <= k < |rows| && rows[k].from >= 1 && Marks(rows[k], now, base, pk, c)
    ensures MaskSince(rows, now, base, pk, c)
  {
    var v, upper := rows[k], Upper(base);
    UpperIs(base);
    WithinIs(base, v);
    WithinIs(now, v);
    UpperIs(now);
    if i :| 0 <= i < |now| && now[i].branch == v.branch {
      assert SegmentMask(rows, now[i], upper, pk, c);
    } else {
      var j :| 0 <= j < |base| && base[j].branch == v.branch && v.from <= base[j].upto;
      assert Touched(rows, base[j].branch, 0, base[j].upto, pk, c);
    }
  }

  lemma {:induction false} MaskIsMark(rows: seq<Version>, now: Chain, base: Chain, pk: PK, c: ColID) returns (k: int)
    requires forall i, j :: 0 <= i < j < |now| ==> now[i].branch != now[j].branch
    requires forall i, j :: 0 <= i < j < |base| ==> base[i].branch != base[j].branch
    requires MaskSince(rows, now, base, pk, c)
    ensures 0 <= k < |rows| && Marks(rows[k], now, base, pk, c)
  {
    var upper := Upper(base);
    UpperIs(base);
    UpperIs(now);
    if i :| 0 <= i < |now| && SegmentMask(rows, now[i], upper, pk, c) {
      var b, to := now[i].branch, now[i].upto;
      var lo, hi := if b in upper then Min(upper[b], to) else 0, if b in upper then Max(upper[b], to) else to;
      k :| 0 <= k < |rows| && Committed(rows[k], b, pk) && lo < rows[k].from <= hi && c in rows[k].changed;
    } else {
      var j :| 0 <= j < |base| && !Sees(now, base[j].branch) && Touched(rows, base[j].branch, 0, base[j].upto, pk, c);
      k :| 0 <= k < |rows| && Committed(rows[k], base[j].branch, pk) && 0 < rows[k].from <= base[j].upto && c in rows[k].changed;
    }
    WithinIs(base, rows[k]);
    WithinIs(now, rows[k]);
  }

  // ----- soundness of the accumulated mask -----

  /** Where two recorded chains meet: the first branch they share. */
  ghost predicate MeetAt(x: Chain, i: int, y: Chain, j: int) {
    && 0 <= i < |x| && 0 <= j < |y|
    && |x| - i == |y| - j
    && x[i].branch == y[j].branch
    && (forall k :: 0 <= k < i ==> !Sees(y, x[k].branch))
    && (forall k :: 0 <= k < j ==> !Sees(x, y[k].branch))
  }

  lemma {:induction false} NotSeen(h: History, x: Chain, y: Chain)
    requires WellFormed(h) && Recorded(h, x) && Recorded(h, y)
    requires |x| > |y| || (|x| == |y| && x[0].branch != y[0].branch)
    ensures !Sees(y, x[0].branch)
  {
    if Sees(y, x[0].branch) {
      var k :| 0 <= k < |y| && y[k].branch == x[0].branch;
      SameDepth(h, x, 0, y, k);
    }
  }

  lemma {:induction false} SeesCons(chain: Chain, b: Name)
    requires chain != []
    ensures Sees(chain, b) <==> chain[0].branch == b || Sees(chain[1..], b)
  {
    if Sees(chain[1..], b) {
      var i :| 0 <= i < |chain[1..]| && chain[1..][i].branch == b;
      assert chain[i + 1].branch == b;
    }
    if Sees(chain, b) && chain[0].branch != b {
      var i :| 0 <= i < |chain| && chain[i].branch == b;
      assert chain[1..][i - 1].branch == b;
    }
  }

  lemma {:induction false} MeetCons(x: Chain, y: Chain, i: int, j: int)
    requires x != [] && MeetAt(x[1..], i, y, j) && !Sees(y, x[0].branch)
    ensures MeetAt(x, i + 1, y, j)
  {
    forall k | 0 <= k < i + 1
      ensures !Sees(y, x[k].branch)
    {
      assert k > 0 ==> x[1..][k - 1] == x[k];
    }
    forall k | 0 <= k < j
      ensures !Sees(x, y[k].branch)
    {
      SeesCons(x, y[k].branch);
      assert Sees(y, y[k].branch);
    }
  }

  lemma {:induction false} ChainsMeet(h: History, x: Chain, y: Chain) returns (i: int, j: int)
    requires WellFormed(h) && Recorded(h, x) && Recorded(h, y)
    ensures MeetAt(x, i, y, j)
    decreases |x| + |y|
  {
    RecordedTail(h, x);
    RecordedTail(h, y);
    if x[0].branch == y[0].branch {
      SameDepth(h, x, 0, y, 0);
      i, j := 0, 0;
    } else if |x| >= |y| {
      NotSeen(h, x, y);
      i, j := ChainsMeet(h, x[1..], y);
      MeetCons(x, y, i, j);
      i := i + 1;
    } else {
      NotSeen(h, y, x);
      j, i := ChainsMeet(h, y[1..], x);
      MeetCons(y, x, j, i);
      j := j + 1;
    }
  }

  /** Peeling segments off a chain changes only cells in those branches' masks. */
  lemma {:induction false} PeelMasked(rows: seq<Version>, h: History, x: Chain, i: nat, pk: PK, c: ColID) returns (k: int)
    requires WellFormed(h) && Masked(rows, h) && Recorded(h, x) && i < |x|
    requires Cell(View(rows, x), pk, c) != Cell(View(rows, x[i..]), pk, c)
    ensures 0 <= k < i && Touched(rows, x[k].branch, 0, x[k].upto, pk, c)
    decreases i
  {
    assert OverlayMasked(rows, h[x[0].branch][x[0].upto]);
    assert x[0..] == x;
    if Cell(View(rows, x), pk, c) != Cell(View(rows, x[1..]), pk, c) {
      k := 0;
    } else {
      RecordedTail(h, x);
      assert x[1..][i - 1..] == x[i..];
      k := PeelMasked(rows, h, x[1..], i - 1, pk, c);
      k := k + 1;
    }
  }

  lemma {:induction false} DistinctBranches(h: History, x: Chain)
    requires WellFormed(h) && Recorded(h, x)
    ensures forall i, j :: 0 <= i < j < |x| ==> x[i].branch != x[j].branch
  {
    forall i, j | 0 <= i < j < |x|
      ensures x[i].branch != x[j].branch
    {
      if x[i].branch == x[j].branch {
        SameDepth(h, x, i, x, j);
      }
    }
  }

  /** A mask between the shared parts of two chains is part of the whole mask. */
  lemma {:induction false} SharedMask(rows: seq<Version>, now: Chain, base: Chain, i: nat, j: nat, pk: PK, c: ColID)
    requires forall k :: 0 <= k < |base| ==> base[k].branch in Upper(base) && Upper(base)[base[k].branch] == base[k].upto
    requires i <= |now| && j <= |base| && Aligned(now[i..], base[j..])
    requires Between(rows, now[i..], base[j..], pk, c) || Between(rows, base[j..], now[i..], pk, c)
    ensures MaskSince(rows, now, base, pk, c)
  {
    var x, y := now[i..], base[j..];
    var k :| 0 <= k < |x| && (
      || Touched(rows, x[k].branch, Min(x[k].upto, y[k].upto), Max(x[k].upto, y[k].upto), pk, c)
      || Touched(rows, y[k].branch, Min(y[k].upto, x[k].upto), Max(y[k].upto, x[k].upto), pk, c));
    assert x[k] == now[i + k] && y[k] == base[j + k] && x[k].branch == y[k].branch;
    assert SegmentMask(rows, now[i + k], Upper(base), pk, c);
  }

  ghost predicate Aligned(x: Chain, y: Chain) {
    |x| == |y| && forall k :: 0 <= k < |x| ==> x[k].branch == y[k].branch
  }

  /** Two views of one branch differ only inside the masks between them. */
  lemma {:induction false} ChangeSound(rows: seq<Version>, h: History, x: Chain, y: Chain, pk: PK, c: ColID)
    requires WellFormed(h) && Masked(rows, h) && Recorded(h, x) && Recorded(h, y)
    requires x[0].branch == y[0].branch
    requires Cell(View(rows, x), pk, c) != Cell(View(rows, y), pk, c)
    ensures Aligned(x, y) && (Between(rows, x, y, pk, c) || Between(rows, y, x, pk, c))
  {
    var a, u, w := x[0].branch, x[0].upto, y[0].upto;
    assert Known(h, a, u) && Known(h, a, w);
    if u <= w {
      assert Below(x, y) && ChangeMasked(rows, x, y);
    } else {
      assert Below(y, x) && ChangeMasked(rows, y, x);
    }
  }

  /** Mask soundness: for any two recorded views, every cell on which they differ
      has its bit in the mask accumulated between them. */
  lemma {:induction false} MaskSound(rows: seq<Version>, h: History, now: Chain, base: Chain, pk: PK, c: ColID)
    requires WellFormed(h) && Masked(rows, h) && Recorded(h, now) && Recorded(h, base)
    requires Cell(View(rows, now), pk, c) != Cell(View(rows, base), pk, c)
    ensures MaskSince(rows, now, base, pk, c)
  {
    var i, j := ChainsMeet(h, now, base);
    DistinctBranches(h, base);
    UpperIs(base);
    if Cell(View(rows, now), pk, c) != Cell(View(rows, now[i..]), pk, c) {
      var k := PeelMasked(rows, h, now, i, pk, c);
      assert SegmentMask(rows, now[k], Upper(base), pk, c);
    } else if Cell(View(rows, base), pk, c) != Cell(View(rows, base[j..]), pk, c) {
      var k := PeelMasked(rows, h, base, j, pk, c);
      assert !Sees(now, base[k].branch);
    } else {
      RecordedSuffix(h, now, i);
      RecordedSuffix(h, base, j);
      ChangeSound(rows, h, now[i..], base[j..], pk, c);
      SharedMask(rows, now, base, i, j, pk, c);
    }
  }
}
