/** Digests and the Merkle root (internal/hash/hash.go). */
module Merkle {
  import opened Core
  import opened Orders

  /** One byte of a hash input, or the 32 bytes of another digest. A digest is kept as the
      input it was computed from, so two digests are equal exactly when their inputs are. */
  datatype Atom = Raw(b: Byte) | Hashed(d: Digest)
  datatype Digest = Sha256(input: seq<Atom>)

  const TAG_LEAF: Byte := 0
  const TAG_INTERNAL: Byte := 1
  const TAG_EMPTY: Byte := 2
  const TAG_COMMIT: Byte := 3

  function Node(l: Digest, r: Digest): Digest {
    Sha256([Raw(TAG_INTERNAL), Hashed(l), Hashed(r)])
  }

  // ----- sorting digests, duplicates included -----

  /** The byte order of digests: any strict order that compares every two. */
  ghost predicate TotalOrder(less: (Digest, Digest) -> bool) {
    StrictOrder(less) && forall x, y :: Comparable(less, x, y)
  }

  /** One such order: inputs compared atom by atom, bytes before digests. */
  predicate DigestLess(x: Digest, y: Digest) {
    LessFrom(x, y, 0)
  }

  predicate LessFrom(x: Digest, y: Digest, i: nat)
    requires i <= |x.input| && i <= |y.input|
    decreases x, |x.input| - i
  {
    if i == |y.input| then false
    else if i == |x.input| then true
    else
      match (x.input[i], y.input[i])
      case (Raw(a), Raw(b)) => a < b || (a == b && LessFrom(x, y, i + 1))
      case (Raw(_), Hashed(_)) => true
      case (Hashed(_), Raw(_)) => false
      case (Hashed(d), Hashed(e)) => LessFrom(d, e, 0) || (d == e && LessFrom(x, y, i + 1))
  }

  lemma {:induction false} LessIrreflexive(x: Digest, i: nat)
    requires i <= |x.input|
    ensures !LessFrom(x, x, i)
    decreases x, |x.input| - i
  {
    if i < |x.input| {
      LessIrreflexive(x, i + 1);
      if x.input[i].Hashed? {
        LessIrreflexive(x.input[i].d, 0);
      }
    }
  }

  lemma {:induction false} LessTransitive(x: Digest, y: Digest, z: Digest, i: nat)
    requires i <= |x.input| && i <= |y.input| && i <= |z.input|
    requires LessFrom(x, y, i) && LessFrom(y, z, i)
    ensures LessFrom(x, z, i)
    decreases x, |x.input| - i
  {
    if i < |x.input| {
      if x.input[i] == y.input[i] == z.input[i] && !LessFrom(x, z, i) {
        LessStep(x, y, i);
        LessStep(y, z, i);
        LessTransitive(x, y, z, i + 1);
      } else if x.input[i].Hashed? && y.input[i].Hashed? && z.input[i].Hashed? {
        var d, e, f := x.input[i].d, y.input[i].d, z.input[i].d;
        if LessFrom(d, e, 0) && LessFrom(e, f, 0) {
          LessTransitive(d, e, f, 0);
        }
      }
    }
  }

  /** Past an equal atom the rest decides. */
  lemma {:induction false} LessStep(x: Digest, y: Digest, i: nat)
    requires i < |x.input| && i < |y.input| && x.input[i] == y.input[i]
    ensures LessFrom(x, y, i) <==> LessFrom(x, y, i + 1)
  {
    if x.input[i].Hashed? {
      LessIrreflexive(x.input[i].d, 0);
    }
  }

  lemma {:induction false} LessCompares(x: Digest, y: Digest, i: nat)
    requires i <= |x.input| && i <= |y.input| && x.input[..i] == y.input[..i]
    ensures x == y || LessFrom(x, y, i) || LessFrom(y, x, i)
    decreases x, |x.input| - i
  {
    if i == |x.input| && i == |y.input| {
      assert x.input[..i] == x.input && y.input[..i] == y.input;
    } else if i < |x.input| && i < |y.input| {
      if x.input[i] == y.input[i] {
        assert x.input[..i + 1] == x.input[..i] + [x.input[i]] && y.input[..i + 1] == y.input[..i] + [y.input[i]];
        LessCompares(x, y, i + 1);
        LessStep(x, y, i);
        LessStep(y, x, i);
      } else if x.input[i].Hashed? && y.input[i].Hashed? {
        LessCompares(x.input[i].d, y.input[i].d, 0);
      }
    }
  }

  lemma {:induction false} DigestsOrdered()
    ensures TotalOrder(DigestLess)
  {
    forall x {:trigger DigestLess(x, x)}
      ensures !DigestLess(x, x)
    {
      LessIrreflexive(x, 0);
    }
    forall x, y, z {:trigger DigestLess(x, y), DigestLess(y, z)} | DigestLess(x, y) && DigestLess(y, z)
      ensures DigestLess(x, z)
    {
      LessTransitive(x, y, z, 0);
    }
    forall x, y
      ensures Comparable(DigestLess, x, y)
    {
      LessCompares(x, y, 0);
    }
  }

  predicate AtMost(less: (Digest, Digest) -> bool, x: Digest, y: Digest) {
    x == y || less(x, y)
  }

  ghost predicate NonDescending(less: (Digest, Digest) -> bool, xs: seq<Digest>) {
    forall i, j :: 0 <= i < j < |xs| ==> AtMost(less, xs[i], xs[j])
  }

  lemma {:induction false} InsertCounts(less: (Digest, Digest) -> bool, x: Digest, xs: seq<Digest>)
    ensures multiset(InsertInto(less, x, xs)) == multiset(xs) + multiset{x}
  {
    if xs != [] {
      assert xs == [xs[0]] + xs[1..];
      if !less(x, xs[0]) {
        InsertCounts(less, x, xs[1..]);
      }
    }
  }

  ghost predicate BelowAll(less: (Digest, Digest) -> bool, x: Digest, ys: seq<Digest>) {
    forall y :: y in ys ==> AtMost(less, x, y)
  }

  lemma {:induction false} Prepended(less: (Digest, Digest) -> bool, x: Digest, ys: seq<Digest>)
    ensures NonDescending(less, [x] + ys) <==> BelowAll(less, x, ys) && NonDescending(less, ys)
  {
    var xs := [x] + ys;
    if BelowAll(less, x, ys) && NonDescending(less, ys) {
      forall i, j | 0 <= i < j < |xs|
        ensures AtMost(less, xs[i], xs[j])
      {
        assert xs[j] in ys;
        assert i > 0 ==> AtMost(less, ys[i - 1], ys[j - 1]);
      }
    }
    if NonDescending(less, xs) {
      forall y | y in ys
        ensures AtMost(less, x, y)
      {
        var j :| 0 <= j < |ys| && ys[j] == y;
        assert AtMost(less, xs[0], xs[j + 1]);
      }
      forall i, j | 0 <= i < j < |ys|
        ensures AtMost(less, ys[i], ys[j])
      {
        assert AtMost(less, xs[i + 1], xs[j + 1]);
      }
    }
  }

  lemma {:induction false} InsertSorted(less: (Digest, Digest) -> bool, x: Digest, xs: seq<Digest>)
    requires TotalOrder(less) && NonDescending(less, xs)
    ensures NonDescending(less, InsertInto(less, x, xs))
  {
    if xs == [] {
      assert InsertInto(less, x, xs) == [x];
    } else {
      var h := xs[0];
      assert xs == [h] + xs[1..];
      assert Comparable(less, x, h);
      Prepended(less, h, xs[1..]);
      if less(x, h) {
        BelowMore(less, x, h, xs[1..]);
        Prepended(less, x, xs);
      } else {
        InsertSorted(less, x, xs[1..]);
        InsertMembers(less, x, xs[1..]);
        Prepended(less, h, InsertInto(less, x, xs[1..]));
      }
    }
  }

  lemma {:induction false} BelowMore(less: (Digest, Digest) -> bool, x: Digest, h: Digest, ys: seq<Digest>)
    requires StrictOrder(less) && less(x, h) && BelowAll(less, h, ys)
    ensures BelowAll(less, x, [h] + ys)
  {
    forall y | y in ys
      ensures AtMost(less, x, y)
    {
      assert AtMost(less, h, y);
    }
  }

  lemma {:induction false} SortSorted(less: (Digest, Digest) -> bool, xs: seq<Digest>)
    requires TotalOrder(less)
    ensures NonDescending(less, SortBy(less, xs)) && multiset(SortBy(less, xs)) == multiset(xs)
    ensures |SortBy(less, xs)| == |xs|
  {
    if xs != [] {
      SortSorted(less, xs[1..]);
      InsertSorted(less, xs[0], SortBy(less, xs[1..]));
      InsertCounts(less, xs[0], SortBy(less, xs[1..]));
      assert xs == [xs[0]] + xs[1..];
    }
    SameSize(SortBy(less, xs), xs);
  }

  lemma {:induction false} SameSize(xs: seq<Digest>, ys: seq<Digest>)
    requires multiset(xs) == multiset(ys)
    ensures |xs| == |ys|
  {
    assert |multiset(xs)| == |multiset(ys)|;
  }

  lemma {:induction false} Antisymmetric(less: (Digest, Digest) -> bool, x: Digest, y: Digest)
    requires StrictOrder(less) && AtMost(less, x, y) && AtMost(less, y, x)
    ensures x == y
  {
    assert !less(x, x);
  }

  lemma {:induction false} SortedHeads(less: (Digest, Digest) -> bool, x: Digest, xs: seq<Digest>, y: Digest, ys: seq<Digest>)
    requires TotalOrder(less) && NonDescending(less, [x] + xs) && NonDescending(less, [y] + ys)
    requires multiset([x] + xs) == multiset([y] + ys)
    ensures x == y && multiset(xs) == multiset(ys)
  {
    Prepended(less, x, xs);
    Prepended(less, y, ys);
    assert y in multiset([y] + ys) && x in multiset([x] + xs);
    assert y in [x] + xs && x in [y] + ys;
    Antisymmetric(less, x, y);
    assert multiset(xs) == multiset([x] + xs) - multiset{x};
    assert multiset(ys) == multiset([y] + ys) - multiset{y};
  }

  /** Sorting forgets the order and nothing else. */
  lemma {:induction false} SortedUnique(less: (Digest, Digest) -> bool, xs: seq<Digest>, ys: seq<Digest>)
    requires TotalOrder(less) && NonDescending(less, xs) && NonDescending(less, ys) && multiset(xs) == multiset(ys)
    ensures xs == ys
    decreases |xs|
  {
    SameSize(xs, ys);
    if xs != [] {
      assert xs == [xs[0]] + xs[1..] && ys == [ys[0]] + ys[1..];
      SortedHeads(less, xs[0], xs[1..], ys[0], ys[1..]);
      Prepended(less, xs[0], xs[1..]);
      Prepended(less, ys[0], ys[1..]);
      SortedUnique(less, xs[1..], ys[1..]);
    }
  }

  lemma {:induction false} SameSort(less: (Digest, Digest) -> bool, xs: seq<Digest>, ys: seq<Digest>)
    requires TotalOrder(less)
    ensures SortBy(less, xs) == SortBy(less, ys) <==> multiset(xs) == multiset(ys)
  {
    SortSorted(less, xs);
    SortSorted(less, ys);
    if multiset(xs) == multiset(ys) {
      SortedUnique(less, SortBy(less, xs), SortBy(less, ys));
    }
  }

  // ----- the tree -----

  /** One level up: neighbours are joined, an odd one out is promoted. */
  function Level(xs: seq<Digest>): (next: seq<Digest>)
    ensures |next| == (|xs| + 1) / 2
  {
    if |xs| < 2 then xs else [Node(xs[0], xs[1])] + Level(xs[2..])
  }

  /** What stands where on the next level. */
  lemma {:induction false} LevelAt(xs: seq<Digest>, i: nat)
    requires i < |Level(xs)|
    ensures Level(xs)[i] == if 2 * i + 1 < |xs| then Node(xs[2 * i], xs[2 * i + 1]) else xs[2 * i]
    decreases i
  {
    if i > 0 {
      LevelAt(xs[2..], i - 1);
    }
  }

  function Root(xs: seq<Digest>): Digest
    requires xs != []
    decreases |xs|
  {
    if |xs| == 1 then xs[0] else Root(Level(xs))
  }

  function MerkleRoot(less: (Digest, Digest) -> bool, leaves: seq<Digest>): Digest {
    if leaves == [] then Sha256([Raw(TAG_EMPTY)])
    else
      var sorted := SortBy(less, leaves);
      if sorted == [] then Sha256([Raw(TAG_EMPTY)]) else Root(sorted)
  }

  lemma {:induction false} LevelSnoc(xs: seq<Digest>, ys: seq<Digest>)
    requires |xs| % 2 == 0
    ensures Level(xs + ys) == Level(xs) + Level(ys)
    decreases |xs|
  {
    if xs == [] {
      assert xs + ys == ys;
    } else {
      assert (xs + ys)[2..] == xs[2..] + ys;
      LevelSnoc(xs[2..], ys);
    }
  }

  /** One turn of the level loop: two neighbours, or the odd one out. */
  method Climb(level: seq<Digest>) returns (next: seq<Digest>)
    ensures next == Level(level)
  {
    next := [];
    var i := 0;
    while i < |level|
      invariant 0 <= i <= |level| + 1 && (i <= |level| ==> i % 2 == 0)
      invariant next == Level(level[..if i < |level| then i else |level|])
    {
      var done := level[..i];
      if i + 1 == |level| {
        LevelSnoc(done, [level[i]]);
        assert level[..|level|] == done + [level[i]];
        next := next + [level[i]];
      } else {
        LevelPair(done, level[i], level[i + 1]);
        assert level[..i + 2] == done + [level[i], level[i + 1]];
        next := next + [Node(level[i], level[i + 1])];
      }
      i := i + 2;
    }
    assert level[..|level|] == level;
  }

  lemma {:induction false} LevelPair(xs: seq<Digest>, l: Digest, r: Digest)
    requires |xs| % 2 == 0
    ensures Level(xs + [l, r]) == Level(xs) + [Node(l, r)]
  {
    LevelSnoc(xs, [l, r]);
    assert [l, r][2..] == [];
    assert Level([l, r]) == [Node(l, r)];
  }

  /** MerkleRoot, as the source loops: sort a copy, then climb level by level. */
  method BuildRoot(less: (Digest, Digest) -> bool, leaves: seq<Digest>) returns (d: Digest)
    requires TotalOrder(less)
    ensures d == MerkleRoot(less, leaves)
  {
    if |leaves| == 0 {
      return Sha256([Raw(TAG_EMPTY)]);
    }
    var level := SortBy(less, leaves);
    SortSorted(less, leaves);
    while |level| > 1
      invariant level != [] && Root(level) == MerkleRoot(less, leaves)
      decreases |level|
    {
      level := Climb(level);
    }
    return level[0];
  }

  // ----- the leaves at the bottom of a digest -----

  predicate IsNode(d: Digest) {
    |d.input| == 3 && d.input[0] == Raw(TAG_INTERNAL) && d.input[1].Hashed? && d.input[2].Hashed?
  }

  predicate IsLeaf(d: Digest) {
    d.input != [] && d.input[0] == Raw(TAG_LEAF)
  }

  /** The leaves a digest was built from, left to right. */
  function Fringe(d: Digest): seq<Digest> {
    if IsNode(d) then Fringe(d.input[1].d) + Fringe(d.input[2].d) else [d]
  }

  function Fringes(xs: seq<Digest>): seq<Digest> {
    if xs == [] then [] else Fringe(xs[0]) + Fringes(xs[1..])
  }

  /** Climbing a level keeps the leaves in order. */
  lemma {:induction false} LevelKeepsFringe(xs: seq<Digest>)
    ensures Fringes(Level(xs)) == Fringes(xs)
    decreases |xs|
  {
    if |xs| >= 2 {
      LevelKeepsFringe(xs[2..]);
      var n := Node(xs[0], xs[1]);
      assert Level(xs)[0] == n && Level(xs)[1..] == Level(xs[2..]);
      assert xs[1..][0] == xs[1] && xs[1..][1..] == xs[2..];
      assert (Fringe(xs[0]) + Fringe(xs[1])) + Fringes(xs[2..]) == Fringe(xs[0]) + (Fringe(xs[1]) + Fringes(xs[2..]));
    }
  }

  lemma {:induction false} RootKeepsFringe(xs: seq<Digest>)
    requires xs != []
    ensures Fringe(Root(xs)) == Fringes(xs)
    decreases |xs|
  {
    if |xs| == 1 {
      assert xs[1..] == [];
    } else {
      RootKeepsFringe(Level(xs));
      LevelKeepsFringe(xs);
    }
  }

  lemma {:induction false} LeavesAreFringe(xs: seq<Digest>)
    requires forall i :: 0 <= i < |xs| ==> IsLeaf(xs[i])
    ensures Fringes(xs) == xs
  {
    if xs != [] {
      LeavesAreFringe(xs[1..]);
      assert xs == [xs[0]] + xs[1..];
    }
  }

  lemma {:induction false} SortedLeaves(less: (Digest, Digest) -> bool, xs: seq<Digest>)
    requires TotalOrder(less) && xs != [] && forall i :: 0 <= i < |xs| ==> IsLeaf(xs[i])
    ensures Fringe(MerkleRoot(less, xs)) == SortBy(less, xs)
  {
    var sorted := SortBy(less, xs);
    SortSorted(less, xs);
    forall i | 0 <= i < |sorted|
      ensures IsLeaf(sorted[i])
    {
      assert sorted[i] in multiset(sorted);
      assert sorted[i] in multiset(xs);
    }
    RootKeepsFringe(sorted);
    LeavesAreFringe(sorted);
  }

  /** The Merkle root is blind to order and injective on content: two lists of leaf
      digests have the same root exactly when they are permutations of each other,
      repetitions counted; the empty list has a root of its own. */
  lemma {:induction false} SameRootIffSameLeaves(less: (Digest, Digest) -> bool, xs: seq<Digest>, ys: seq<Digest>)
    requires TotalOrder(less)
    requires forall i :: 0 <= i < |xs| ==> IsLeaf(xs[i])
    requires forall i :: 0 <= i < |ys| ==> IsLeaf(ys[i])
    ensures MerkleRoot(less, xs) == MerkleRoot(less, ys) <==> multiset(xs) == multiset(ys)
  {
    SameSort(less, xs, ys);
    if xs != [] && ys != [] {
      SortedLeaves(less, xs);
      SortedLeaves(less, ys);
    } else if xs != [] || ys != [] {
      var zs := if xs != [] then xs else ys;
      SortedLeaves(less, zs);
      SortSorted(less, zs);
    }
  }

  /** Being leaves matters: an internal node stands for its two leaves. */
  lemma {:induction false} NodeStandsForLeaves(less: (Digest, Digest) -> bool, a: Digest, b: Digest)
    requires TotalOrder(less) && less(a, b)
    ensures MerkleRoot(less, [Node(a, b)]) == MerkleRoot(less, [a, b])
  {
    assert [a, b][1..] == [b] && [b][1..] == [] && [Node(a, b)][1..] == [];
    assert SortBy(less, [b]) == [b];
    assert SortBy(less, [a, b]) == [a, b];
    assert Level([a, b]) == [Node(a, b)] + Level([a, b][2..]);
    assert Level([a, b]) == [Node(a, b)];
  }
}
