/** What the tiling means for a reader of the store. */
module Tiling {
  import opened Core
  import opened Versions

  /** Writing a version keeps every closed version followed by the next one. */
  lemma {:induction false} WriteFollowed(rows: seq<Version>, v: Version)
    requires Followed(rows) && v.session == 0 && v.to == MAX_SEQ
    ensures Followed(Write(rows, v))
  {
    var r := Write(rows, v);
    CloseShrinks(rows, v.branch, v.pk, v.from);
    forall i | 0 <= i < |r| && r[i].session == 0 && r[i].to != MAX_SEQ
      ensures FollowedAt(r, i)
    {
      if r[i] != rows[i] {
        assert r[|rows|] == v && r[|rows|].from == r[i].to;
      } else {
        assert FollowedAt(rows, i);
        var j :| 0 <= j < |rows| && Committed(rows[j], rows[i].branch, rows[i].pk) && rows[j].from == rows[i].to;
        assert Committed(r[j], r[i].branch, r[i].pk) && r[j].from == r[i].to;
      }
    }
  }

  lemma {:induction false} WriteAllFollowed(rows: seq<Version>, vs: seq<Version>, b: Name, n: int)
    requires Followed(rows) && Batch(vs, b, n)
    ensures Followed(WriteAll(rows, vs))
    decreases |vs|
  {
    if vs != [] {
      var init := vs[..|vs| - 1];
      assert forall i :: 0 <= i < |init| ==> init[i] == vs[i];
      WriteAllFollowed(rows, init, b, n);
      WriteFollowed(WriteAll(rows, init), vs[|vs| - 1]);
    }
  }

  /** From any version of a key on, some version of the key covers every seq. */
  lemma {:induction false} NoGap(rows: seq<Version>, heads: map<Name, int>, i: int, s: int) returns (j: int)
    requires Tiled(rows, heads) && Followed(rows)
    requires 0 <= i < |rows| && rows[i].session == 0 && rows[i].from <= s < MAX_SEQ
    ensures 0 <= j < |rows| && Covers(rows[j], rows[i].branch, s, rows[i].pk)
    decreases s - rows[i].from
  {
    assert InRange(rows[i], heads);
    if s < rows[i].to {
      j := i;
    } else {
      assert FollowedAt(rows, i);
      var n :| 0 <= n < |rows| && Committed(rows[n], rows[i].branch, rows[i].pk) && rows[n].from == rows[i].to;
      j := NoGap(rows, heads, n, s);
    }
  }

  ghost predicate CoveredOnce(rows: seq<Version>, b: Name, s: int, pk: PK) {
    exists j ::
      && 0 <= j < |rows|
      && Covers(rows[j], b, s, pk)
      && forall k :: 0 <= k < |rows| && Covers(rows[k], b, s, pk) ==> k == j
  }

  /** The committed versions of a key on a branch tile [first from, MAX_SEQ):
      every seq from any version's start on is covered exactly once. */
  lemma {:induction false} TilesExactly(rows: seq<Version>, heads: map<Name, int>, i: int, s: int)
    requires Tiled(rows, heads) && Followed(rows)
    requires 0 <= i < |rows| && rows[i].session == 0 && rows[i].from <= s < MAX_SEQ
    ensures CoveredOnce(rows, rows[i].branch, s, rows[i].pk)
  {
    var j := NoGap(rows, heads, i, s);
    forall k | 0 <= k < |rows| && Covers(rows[k], rows[i].branch, s, rows[i].pk)
      ensures k == j
    {
      assert Overlap(rows[k], rows[j]) && Overlap(rows[j], rows[k]);
    }
  }

  /** So exactly one version of the key is open. */
  lemma {:induction false} OneOpen(rows: seq<Version>, heads: map<Name, int>, i: int)
    requires Tiled(rows, heads) && Followed(rows)
    requires 0 <= i < |rows| && rows[i].session == 0
    requires forall b :: b in heads ==> heads[b] < MAX_SEQ - 1
    ensures exists j ::
      && 0 <= j < |rows|
      && OpenFor(rows[j], rows[i].branch, rows[i].pk)
      && forall k :: 0 <= k < |rows| && OpenFor(rows[k], rows[i].branch, rows[i].pk) ==> k == j
  {
    assert InRange(rows[i], heads);
    TilesExactly(rows, heads, i, MAX_SEQ - 1);
    var j :| 0 <= j < |rows| && Covers(rows[j], rows[i].branch, MAX_SEQ - 1, rows[i].pk)
      && forall k :: 0 <= k < |rows| && Covers(rows[k], rows[i].branch, MAX_SEQ - 1, rows[i].pk) ==> k == j;
    assert InRange(rows[j], heads);
    assert OpenFor(rows[j], rows[i].branch, rows[i].pk);
    forall k | 0 <= k < |rows| && OpenFor(rows[k], rows[i].branch, rows[i].pk)
      ensures k == j
    {
      assert InRange(rows[k], heads);
      assert Covers(rows[k], rows[i].branch, MAX_SEQ - 1, rows[i].pk);
    }
  }
}
