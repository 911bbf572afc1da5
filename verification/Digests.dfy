/** Leaf, change and schema digests (internal/hash/hash.go). */
module Digests {
  import opened Wrappers
  import opened Core
  import opened Orders
  import opened Encoding
  import opened Merkle
  import Masks

  const TAG_SCHEMA: Byte := 4

  // ----- taking framed byte strings apart -----

  function Raws(bs: Bytes): (atoms: seq<Atom>)
    ensures |atoms| == |bs| && forall i :: 0 <= i < |bs| ==> atoms[i] == Raw(bs[i])
  {
    seq(|bs|, i requires 0 <= i < |bs| => Raw(bs[i]))
  }

  lemma {:induction false} RawsInjective(a: Bytes, b: Bytes)
    ensures Raws(a) == Raws(b) <==> a == b
  {
    if Raws(a) == Raws(b) {
      forall i | 0 <= i < |a|
        ensures |a| == |b| && a[i] == b[i]
      {
        assert |Raws(a)| == |Raws(b)| && Raws(a)[i] == Raws(b)[i];
      }
      assert |Raws(a)| == |Raws(b)|;
    }
  }

  /** Two parts of known width. */
  lemma {:induction false} Apart<T>(a: seq<T>, x: seq<T>, b: seq<T>, y: seq<T>)
    requires |a| == |b|
    ensures a + x == b + y <==> a == b && x == y
  {
    if a + x == b + y {
      assert (a + x)[..|a|] == a && (b + y)[..|b|] == b;
      assert (a + x)[|a|..] == x && (b + y)[|b|..] == y;
    }
  }

  /** Two length-prefixed parts. */
  lemma {:induction false} FramedApart(p: Bytes, x: Bytes, q: Bytes, y: Bytes)
    requires |p| < UINT32 && |q| < UINT32
    ensures LengthPrefixed(p) + x == LengthPrefixed(q) + y <==> p == q && x == y
  {
    FramedRoundTrip(p, x);
    FramedRoundTrip(q, y);
  }

  lemma {:induction false} WordsApart(v: Word, w: Word)
    ensures U64(v) == U64(w) <==> v == w
  {
    U64RoundTrip(v);
    U64RoundTrip(w);
  }

  lemma {:induction false} CountsApart(m: nat, n: nat)
    requires m < UINT32 && n < UINT32
    ensures U32(m) == U32(n) <==> m == n
  {
    LengthFits(m);
    LengthFits(n);
  }

  // ----- column masks -----

  function WordBytes(ws: seq<Word>): (bs: Bytes)
    ensures |bs| == 8 * |ws|
  {
    if ws == [] then [] else WordBytes(ws[..|ws| - 1]) + U64(ws[|ws| - 1])
  }

  lemma {:induction false} WordBytesInjective(v: seq<Word>, w: seq<Word>)
    ensures WordBytes(v) == WordBytes(w) <==> v == w
    decreases |v|
  {
    if WordBytes(v) == WordBytes(w) {
      assert |WordBytes(v)| == |WordBytes(w)|;
      if v != [] {
        var x, y := v[|v| - 1], w[|w| - 1];
        Apart(WordBytes(v[..|v| - 1]), U64(x), WordBytes(w[..|w| - 1]), U64(y));
        WordBytesInjective(v[..|v| - 1], w[..|w| - 1]);
        WordsApart(x, y);
        assert v == v[..|v| - 1] + [x] && w == w[..|w| - 1] + [y];
      }
    }
  }

  /** maskBytes: the trailing zero words are dropped, the others written out. */
  method MaskBytes(m: Masks.Mask) returns (out: Bytes)
    ensures out == WordBytes(Masks.Trimmed(m))
  {
    var n := UsedWords(m);
    var t := m[..n];
    out := [];
    var i := 0;
    while i < n
      invariant 0 <= i <= n && out == WordBytes(t[..i])
    {
      assert t[..i + 1][..i] == t[..i];
      out := out + U64(t[i]);
      i := i + 1;
    }
    assert t[..n] == t;
  }

  method UsedWords(m: Masks.Mask) returns (n: nat)
    ensures n <= |m| && m[..n] == Masks.Trimmed(m)
  {
    n := |m|;
    assert m[..n] == m;
    while n > 0 && m[n - 1] == 0
      invariant n <= |m| && Masks.Trimmed(m[..n]) == Masks.Trimmed(m)
    {
      assert m[..n][..n - 1] == m[..n - 1];
      n := n - 1;
    }
  }

  // ----- leaves -----

  /** One row's contribution to a commit; the row of a delete is not looked at. */
  datatype RowChange = RowChange(tableID: Word, pk: Bytes, op: Op, changed: Masks.Mask, row: RawRow)

  function OpCode(op: Op): Byte {
    match op case Insert => 1 case Update => 2 case Delete => 3
  }

  function RowPart(c: RowChange, cols: seq<ColID>): Option<Bytes> {
    if c.op == Delete then Some([]) else EncodeRow(c.row, cols)
  }

  function LeafBytes(c: RowChange, row: Bytes): Bytes {
    [TAG_LEAF] + (U64(c.tableID) + (LengthPrefixed(c.pk) + ([OpCode(c.op)] +
      (LengthPrefixed(WordBytes(Masks.Trimmed(c.changed))) + row))))
  }

  /** LeafDigest; None when a cell is NaN. */
  function LeafDigest(c: RowChange, cols: seq<ColID>): (d: Option<Digest>)
    ensures d.Some? ==> IsLeaf(d.value)
  {
    match RowPart(c, cols)
    case Some(row) => Some(Sha256(Raws(LeafBytes(c, row))))
    case None => None
  }

  /** LeafDigest, as the source appends to a buffer. */
  method BuildLeaf(c: RowChange, cols: seq<ColID>) returns (d: Option<Digest>)
    ensures d == LeafDigest(c, cols)
  {
    var buf := [TAG_LEAF];
    buf := buf + U64(c.tableID);
    buf := AppendLenPrefixed(buf, c.pk);
    buf := buf + [OpCode(c.op)];
    var mask := MaskBytes(c.changed);
    buf := AppendLenPrefixed(buf, mask);
    ghost var p, q := LengthPrefixed(c.pk), LengthPrefixed(mask);
    if c.op != Delete {
      var out := AppendRow(buf, c.row, cols);
      if out.None? {
        return None;
      }
      buf := out.value;
      SixJoined([TAG_LEAF], U64(c.tableID), p, [OpCode(c.op)], q, RowPart(c, cols).value);
    } else {
      SixJoined([TAG_LEAF], U64(c.tableID), p, [OpCode(c.op)], q, []);
      assert buf + [] == buf;
    }
    return Some(Sha256(Raws(buf)));
  }

  lemma {:induction false} SixJoined(a: Bytes, b: Bytes, c: Bytes, d: Bytes, e: Bytes, f: Bytes)
    ensures ((((a + b) + c) + d) + e) + f == a + (b + (c + (d + (e + f))))
  {
    Joined(((a + b) + c) + d, e, f);
    FiveJoined(a, b, c, d, e + f);
  }

  /** What a leaf is about: the columns as a set whatever the width of the mask, and the
      cells, with equal numbers identified, unless the row is deleted. */
  datatype LeafContent = LeafContent(tableID: Word, pk: Bytes, op: Op, columns: set<nat>, cells: seq<(nat, RawValue)>)

  function Content(c: RowChange, cols: seq<ColID>): LeafContent {
    LeafContent(c.tableID, c.pk, c.op, Masks.Columns(c.changed), if c.op == Delete then [] else CellsOf(c.row, cols))
  }

  /** Lengths fit their 32-bit prefixes, and no cell is NaN. */
  ghost predicate Hashable(c: RowChange, cols: seq<ColID>) {
    && |c.pk| < UINT32 && |c.changed| < UINT32 / 8 && |cols| < UINT32
    && (c.op != Delete ==> forall i :: 0 <= i < |cols| ==> Framable(GetRaw(c.row, cols[i])))
  }

  lemma {:induction false} RowPartsApart(c: RowChange, cols: seq<ColID>, d: RowChange, cols': seq<ColID>)
    requires Hashable(c, cols) && Hashable(d, cols') && c.op == d.op
    ensures RowPart(c, cols).Some? && RowPart(d, cols').Some?
    ensures RowPart(c, cols) == RowPart(d, cols') <==> Content(c, cols).cells == Content(d, cols').cells
  {
    if c.op != Delete {
      RowsFramed(c.row, cols, d.row, cols', [], []);
      var x, y := RowPart(c, cols).value, RowPart(d, cols').value;
      assert x + [] == x && y + [] == y;
      SameCellsIff(c.row, cols, d.row, cols');
    }
  }

  lemma {:induction false} SameCellsIff(r: RawRow, cols: seq<ColID>, s: RawRow, cols': seq<ColID>)
    requires forall i :: 0 <= i < |cols| ==> Framable(GetRaw(r, cols[i]))
    requires forall i :: 0 <= i < |cols'| ==> Framable(GetRaw(s, cols'[i]))
    ensures CellsOf(r, cols) == CellsOf(s, cols') <==>
      cols == cols' && forall i :: 0 <= i < |cols| ==> ValueEqual(GetRaw(r, cols[i]), GetRaw(s, cols[i]))
  {
    if CellsOf(r, cols) == CellsOf(s, cols') {
      CellsEqual(r, s, cols, cols');
    }
  }

  lemma {:induction false} LeafBytesApart(c: RowChange, x: Bytes, d: RowChange, y: Bytes)
    requires |c.pk| < UINT32 && |c.changed| < UINT32 / 8 && |d.pk| < UINT32 && |d.changed| < UINT32 / 8
    ensures LeafBytes(c, x) == LeafBytes(d, y) <==>
      c.tableID == d.tableID && c.pk == d.pk && c.op == d.op && Masks.Trimmed(c.changed) == Masks.Trimmed(d.changed) && x == y
  {
    var m, n := WordBytes(Masks.Trimmed(c.changed)), WordBytes(Masks.Trimmed(d.changed));
    var c3, d3 := LengthPrefixed(m) + x, LengthPrefixed(n) + y;
    var c2, d2 := [OpCode(c.op)] + c3, [OpCode(d.op)] + d3;
    var c1, d1 := LengthPrefixed(c.pk) + c2, LengthPrefixed(d.pk) + d2;
    Apart([TAG_LEAF], U64(c.tableID) + c1, [TAG_LEAF], U64(d.tableID) + d1);
    Apart(U64(c.tableID), c1, U64(d.tableID), d1);
    WordsApart(c.tableID, d.tableID);
    FramedApart(c.pk, c2, d.pk, d2);
    Apart([OpCode(c.op)], c3, [OpCode(d.op)], d3);
    OpCodesApart(c.op, d.op);
    FramedApart(m, x, n, y);
    WordBytesInjective(Masks.Trimmed(c.changed), Masks.Trimmed(d.changed));
  }

  lemma {:induction false} OpCodesApart(o: Op, p: Op)
    ensures [OpCode(o)] == [OpCode(p)] <==> o == p
  {
    assert [OpCode(o)][0] == OpCode(o) && [OpCode(p)][0] == OpCode(p);
  }

  /** A leaf digest is its content and nothing else: two changes have the same leaf
      exactly when table, key, operation, column set and, unless deleted, the cells
      agree. The width of the mask does not show. */
  lemma {:induction false} SameLeafIffSameContent(c: RowChange, cols: seq<ColID>, d: RowChange, cols': seq<ColID>)
    requires Hashable(c, cols) && Hashable(d, cols')
    ensures LeafDigest(c, cols).Some? && LeafDigest(d, cols').Some?
    ensures LeafDigest(c, cols) == LeafDigest(d, cols') <==> Content(c, cols) == Content(d, cols')
  {
    RowPartsApart(c, cols, c, cols);
    RowPartsApart(d, cols', d, cols');
    var x, y := RowPart(c, cols).value, RowPart(d, cols').value;
    RawsInjective(LeafBytes(c, x), LeafBytes(d, y));
    LeafBytesApart(c, x, d, y);
    Masks.TrimmedIsCanonical(c.changed, d.changed);
    if c.op == d.op {
      RowPartsApart(c, cols, d, cols');
    }
  }

  // ----- change sets -----

  /** ChangeDigest, as the source loops; None when a leaf is refused. */
  method ChangeDigest(less: (Digest, Digest) -> bool, changes: seq<RowChange>, cols: seq<ColID>) returns (d: Option<Digest>)
    requires TotalOrder(less)
    ensures d == ChangeRoot(less, changes, cols)
  {
    var leaves: seq<Digest> := [];
    var i := 0;
    while i < |changes|
      invariant 0 <= i <= |changes|
      invariant Leaves(changes[..i], cols) == Some(leaves)
    {
      var leaf := BuildLeaf(changes[i], cols);
      assert changes[..i + 1][..i] == changes[..i];
      if leaf.None? {
        LeafRefused(changes, cols, i);
        return None;
      }
      leaves := leaves + [leaf.value];
      i := i + 1;
    }
    assert changes[..i] == changes;
    var root := BuildRoot(less, leaves);
    return Some(root);
  }

  function Leaves(changes: seq<RowChange>, cols: seq<ColID>): (r: Option<seq<Digest>>)
    ensures r.Some? ==> |r.value| == |changes|
    decreases |changes|
  {
    if changes == [] then Some([])
    else
      var k := |changes| - 1;
      match (Leaves(changes[..k], cols), LeafDigest(changes[k], cols))
      case (Some(ds), Some(d)) => Some(ds + [d])
      case _ => None
  }

  function ChangeRoot(less: (Digest, Digest) -> bool, changes: seq<RowChange>, cols: seq<ColID>): Option<Digest> {
    match Leaves(changes, cols)
    case Some(leaves) => Some(MerkleRoot(less, leaves))
    case None => None
  }

  lemma {:induction false} LeafRefused(changes: seq<RowChange>, cols: seq<ColID>, i: nat)
    requires i < |changes| && LeafDigest(changes[i], cols) == None
    ensures Leaves(changes, cols) == None
    decreases |changes|
  {
    if i < |changes| - 1 {
      LeafRefused(changes[..|changes| - 1], cols, i);
    }
  }

  function Contents(changes: seq<RowChange>, cols: seq<ColID>): (r: seq<LeafContent>)
    ensures |r| == |changes| && forall i :: 0 <= i < |changes| ==> r[i] == Content(changes[i], cols)
  {
    seq(|changes|, i requires 0 <= i < |changes| => Content(changes[i], cols))
  }

  ghost predicate AllHashable(changes: seq<RowChange>, cols: seq<ColID>) {
    forall i :: 0 <= i < |changes| ==> Hashable(changes[i], cols)
  }

  lemma {:induction false} LeavesAccepted(changes: seq<RowChange>, cols: seq<ColID>)
    requires AllHashable(changes, cols)
    ensures Leaves(changes, cols).Some?
    decreases |changes|
  {
    if changes != [] {
      var k := |changes| - 1;
      AllHashableBefore(changes, cols, k);
      LeavesAccepted(changes[..k], cols);
      SameLeafIffSameContent(changes[k], cols, changes[k], cols);
    }
  }

  lemma {:induction false} AllHashableBefore(changes: seq<RowChange>, cols: seq<ColID>, k: nat)
    requires AllHashable(changes, cols) && k <= |changes|
    ensures AllHashable(changes[..k], cols)
  {
  }

  lemma {:induction false} LeafAt(changes: seq<RowChange>, cols: seq<ColID>, i: nat)
    requires i < |changes| && Leaves(changes, cols).Some?
    ensures Some(Leaves(changes, cols).value[i]) == LeafDigest(changes[i], cols)
    decreases |changes|
  {
    if i < |changes| - 1 {
      LeafAt(changes[..|changes| - 1], cols, i);
    }
  }

  /** Two pairs of lists that agree on which of their elements are equal. */
  ghost predicate Matched<A(!new), B(!new)>(xs: seq<A>, us: seq<B>, ys: seq<A>, vs: seq<B>) {
    && |xs| == |us| && |ys| == |vs|
    && forall i, j :: 0 <= i < |xs| && 0 <= j < |ys| ==> (xs[i] == ys[j] <==> us[i] == vs[j])
  }

  function Without<T>(xs: seq<T>, j: nat): (r: seq<T>)
    requires j < |xs|
    ensures |r| == |xs| - 1
    ensures forall b :: 0 <= b < |r| ==> r[b] == xs[if b < j then b else b + 1]
  {
    xs[..j] + xs[j + 1..]
  }

  lemma {:induction false} StillMatched<A(!new), B(!new)>(xs: seq<A>, us: seq<B>, ys: seq<A>, vs: seq<B>, i: nat, j: nat)
    requires Matched(xs, us, ys, vs) && i < |xs| && j < |ys|
    ensures Matched(Without(xs, i), Without(us, i), Without(ys, j), Without(vs, j))
  {
  }

  lemma {:induction false} PermutedTogether<A(!new), B(!new)>(xs: seq<A>, us: seq<B>, ys: seq<A>, vs: seq<B>)
    requires Matched(xs, us, ys, vs) && multiset(xs) == multiset(ys)
    ensures multiset(us) == multiset(vs)
    decreases |xs|
  {
    assert |multiset(xs)| == |multiset(ys)|;
    if xs != [] {
      assert xs[0] in multiset(ys);
      var j :| 0 <= j < |ys| && ys[j] == xs[0];
      StillMatched(xs, us, ys, vs, 0, j);
      Removed(ys, j);
      Removed(vs, j);
      Removed(xs, 0);
      Removed(us, 0);
      Cancelled(multiset(Without(xs, 0)), multiset(Without(ys, j)), xs[0]);
      PermutedTogether(Without(xs, 0), Without(us, 0), Without(ys, j), Without(vs, j));
    }
  }

  lemma {:induction false} Cancelled<T>(a: multiset<T>, b: multiset<T>, x: T)
    requires a + multiset{x} == b + multiset{x}
    ensures a == b
  {
    assert a == (a + multiset{x}) - multiset{x};
    assert b == (b + multiset{x}) - multiset{x};
  }

  lemma {:induction false} Removed<T>(xs: seq<T>, j: nat)
    requires j < |xs|
    ensures multiset(xs) == multiset(Without(xs, j)) + multiset{xs[j]}
  {
    assert xs == xs[..j] + ([xs[j]] + xs[j + 1..]);
  }

  /** A change digest is the multiset of what was changed: two change lists, in any
      order, have the same digest exactly when they hold the same contents. */
  lemma {:induction false} SameChangesIff(less: (Digest, Digest) -> bool, cs: seq<RowChange>, cols: seq<ColID>, ds: seq<RowChange>, cols': seq<ColID>)
    requires TotalOrder(less) && AllHashable(cs, cols) && AllHashable(ds, cols')
    ensures ChangeRoot(less, cs, cols).Some? && ChangeRoot(less, ds, cols').Some?
    ensures ChangeRoot(less, cs, cols) == ChangeRoot(less, ds, cols') <==>
      multiset(Contents(cs, cols)) == multiset(Contents(ds, cols'))
  {
    LeavesAccepted(cs, cols);
    LeavesAccepted(ds, cols');
    var us, vs := Leaves(cs, cols).value, Leaves(ds, cols').value;
    forall i | 0 <= i < |us|
      ensures Some(us[i]) == LeafDigest(cs[i], cols)
    {
      LeafAt(cs, cols, i);
    }
    forall j | 0 <= j < |vs|
      ensures Some(vs[j]) == LeafDigest(ds[j], cols')
    {
      LeafAt(ds, cols', j);
    }
    SameRootIffSameLeaves(less, us, vs);
    var xs, ys := Contents(cs, cols), Contents(ds, cols');
    forall i, j | 0 <= i < |xs| && 0 <= j < |ys|
      ensures xs[i] == ys[j] <==> us[i] == vs[j]
    {
      SameLeafIffSameContent(cs[i], cols, ds[j], cols');
    }
    if multiset(us) == multiset(vs) {
      PermutedTogether(us, xs, vs, ys);
    }
    if multiset(xs) == multiset(ys) {
      PermutedTogether(xs, us, ys, vs);
    }
  }

  // ----- schemas -----

  datatype SchemaColumn = SchemaColumn(id: ColID, name: Bytes, kind: Bytes, nullable: bool, pk: bool)

  predicate IdLess(a: SchemaColumn, b: SchemaColumn) {
    a.id < b.id
  }

  function Flags(c: SchemaColumn): Byte {
    (if c.nullable then 1 else 0) + (if c.pk then 2 else 0)
  }

  function ColumnBytes(c: SchemaColumn, rest: Bytes): Bytes {
    U32(c.id) + (LengthPrefixed(c.name) + (LengthPrefixed(c.kind) + ([Flags(c)] + rest)))
  }

  function ColumnsBytes(cols: seq<SchemaColumn>): Bytes {
    if cols == [] then [] else ColumnBytes(cols[0], ColumnsBytes(cols[1..]))
  }

  function SchemaDigest(tableID: Word, cols: seq<SchemaColumn>): Digest {
    Sha256(Raws([TAG_SCHEMA] + (U64(tableID) + (U32(|cols|) + ColumnsBytes(SortBy(IdLess, cols))))))
  }

  lemma {:induction false} ColumnsSnoc(cols: seq<SchemaColumn>, c: SchemaColumn)
    ensures ColumnsBytes(cols + [c]) == ColumnsBytes(cols) + ColumnBytes(c, [])
  {
    if cols == [] {
      assert [] + [c] == [c] && [c][1..] == [];
      assert [] + ColumnBytes(c, []) == ColumnBytes(c, []);
    } else {
      assert (cols + [c])[0] == cols[0] && (cols + [c])[1..] == cols[1..] + [c];
      ColumnsSnoc(cols[1..], c);
      ColumnThen(cols[0], ColumnsBytes(cols[1..]), ColumnBytes(c, []));
    }
  }

  lemma {:induction false} ColumnThen(c: SchemaColumn, x: Bytes, y: Bytes)
    ensures ColumnBytes(c, x + y) == ColumnBytes(c, x) + y
  {
    Joined([Flags(c)], x, y);
    Joined(LengthPrefixed(c.kind), [Flags(c)] + x, y);
    Joined(LengthPrefixed(c.name), LengthPrefixed(c.kind) + ([Flags(c)] + x), y);
    Joined(U32(c.id), LengthPrefixed(c.name) + (LengthPrefixed(c.kind) + ([Flags(c)] + x)), y);
  }

  /** SchemaDigest, as the source appends to a buffer. */
  method BuildSchema(tableID: Word, cols: seq<SchemaColumn>) returns (d: Digest)
    ensures d == SchemaDigest(tableID, cols)
  {
    var sorted := SortBy(IdLess, cols);
    SortedSize(IdLess, cols);
    var buf := [TAG_SCHEMA];
    buf := buf + U64(tableID);
    buf := buf + U32(|sorted|);
    ghost var head := buf;
    assert sorted[..0] == [] && head + [] == head;
    var i := 0;
    while i < |sorted|
      invariant 0 <= i <= |sorted| && buf == head + ColumnsBytes(sorted[..i])
    {
      var next := AppendColumn(buf, sorted[i]);
      assert sorted[..i + 1] == sorted[..i] + [sorted[i]];
      ColumnsSnoc(sorted[..i], sorted[i]);
      Joined(head, ColumnsBytes(sorted[..i]), ColumnBytes(sorted[i], []));
      buf := next;
      i := i + 1;
    }
    assert sorted[..i] == sorted;
    Joined([TAG_SCHEMA] + U64(tableID), U32(|sorted|), ColumnsBytes(sorted));
    Joined([TAG_SCHEMA], U64(tableID), U32(|sorted|) + ColumnsBytes(sorted));
    return Sha256(Raws(buf));
  }

  method AppendColumn(dst: Bytes, c: SchemaColumn) returns (buf: Bytes)
    ensures buf == dst + ColumnBytes(c, [])
  {
    buf := dst + U32(c.id);
    buf := AppendLenPrefixed(buf, c.name);
    buf := AppendLenPrefixed(buf, c.kind);
    var flags: Byte := 0;
    if c.nullable {
      flags := flags + 1;
    }
    if c.pk {
      flags := flags + 2;
    }
    buf := buf + [flags];
    FiveJoined(dst, U32(c.id), LengthPrefixed(c.name), LengthPrefixed(c.kind), [flags]);
    assert [flags] + [] == [flags];
  }

  lemma {:induction false} FiveJoined(a: Bytes, b: Bytes, c: Bytes, d: Bytes, e: Bytes)
    ensures (((a + b) + c) + d) + e == a + (b + (c + (d + e)))
  {
    Joined((a + b) + c, d, e);
    Joined(a + b, c, d + e);
    Joined(a, b, c + (d + e));
  }

  ghost predicate Framed(cols: seq<SchemaColumn>) {
    |cols| < UINT32 && forall c :: c in cols ==> |c.name| < UINT32 && |c.kind| < UINT32
  }

  ghost predicate DistinctIds(cols: seq<SchemaColumn>) {
    forall i, j :: 0 <= i < j < |cols| ==> cols[i].id != cols[j].id
  }

  function Members(cols: seq<SchemaColumn>): (s: set<SchemaColumn>)
    ensures forall c :: c in s <==> c in cols
  {
    set c | c in cols
  }

  lemma {:induction false} ColumnsApart(c: SchemaColumn, x: Bytes, d: SchemaColumn, y: Bytes)
    requires |c.name| < UINT32 && |c.kind| < UINT32 && |d.name| < UINT32 && |d.kind| < UINT32
    ensures ColumnBytes(c, x) == ColumnBytes(d, y) <==> c == d && x == y
  {
    var c2, d2 := [Flags(c)] + x, [Flags(d)] + y;
    var c1, d1 := LengthPrefixed(c.kind) + c2, LengthPrefixed(d.kind) + d2;
    Apart(U32(c.id), LengthPrefixed(c.name) + c1, U32(d.id), LengthPrefixed(d.name) + d1);
    CountsApart(c.id, d.id);
    FramedApart(c.name, c1, d.name, d1);
    FramedApart(c.kind, c2, d.kind, d2);
    Apart([Flags(c)], x, [Flags(d)], y);
    assert [Flags(c)][0] == Flags(c) && [Flags(d)][0] == Flags(d);
  }

  lemma {:induction false} ColumnListsApart(cs: seq<SchemaColumn>, ds: seq<SchemaColumn>)
    requires Framed(cs) && Framed(ds) && |cs| == |ds|
    ensures ColumnsBytes(cs) == ColumnsBytes(ds) <==> cs == ds
    decreases |cs|
  {
    if cs != [] {
      assert cs == [cs[0]] + cs[1..] && ds == [ds[0]] + ds[1..];
      assert cs[0] in cs && ds[0] in ds;
      ColumnsApart(cs[0], ColumnsBytes(cs[1..]), ds[0], ColumnsBytes(ds[1..]));
      ColumnListsApart(cs[1..], ds[1..]);
    }
  }

  lemma {:induction false} SortedSize<T>(less: (T, T) -> bool, xs: seq<T>)
    ensures |SortBy(less, xs)| == |xs|
  {
    if xs != [] {
      SortedSize(less, xs[1..]);
      InsertSize(less, xs[0], SortBy(less, xs[1..]));
    }
  }

  lemma {:induction false} InsertSize<T>(less: (T, T) -> bool, x: T, xs: seq<T>)
    ensures |InsertInto(less, x, xs)| == |xs| + 1
  {
    if xs != [] && !less(x, xs[0]) {
      InsertSize(less, x, xs[1..]);
    }
  }

  lemma {:induction false} SortedFramed(cols: seq<SchemaColumn>)
    requires Framed(cols)
    ensures Framed(SortBy(IdLess, cols)) && |SortBy(IdLess, cols)| == |cols|
  {
    SortedSize(IdLess, cols);
    SortMembers(IdLess, cols);
  }

  lemma {:induction false} SameSortIffSameColumns(cs: seq<SchemaColumn>, ds: seq<SchemaColumn>)
    requires DistinctIds(cs) && DistinctIds(ds)
    ensures SortBy(IdLess, cs) == SortBy(IdLess, ds) <==> Members(cs) == Members(ds)
  {
    SortMembers(IdLess, cs);
    SortMembers(IdLess, ds);
    if Members(cs) == Members(ds) {
      assert NoTies(IdLess, cs) && NoTies(IdLess, ds);
      assert StrictOrder(IdLess);
      forall c
        ensures c in cs <==> c in ds
      {
        assert c in Members(cs) <==> c in Members(ds);
      }
      SortDetermined(IdLess, cs, ds);
    }
  }

  lemma {:induction false} SameSetSameSize(cs: seq<SchemaColumn>, ds: seq<SchemaColumn>)
    requires DistinctIds(cs) && DistinctIds(ds) && Members(cs) == Members(ds)
    ensures |cs| == |ds|
  {
    SameSortIffSameColumns(cs, ds);
    SortedSize(IdLess, cs);
    SortedSize(IdLess, ds);
  }

  /** A schema digest is the table and the set of its columns: declaration order does
      not show, everything else about a column does. */
  lemma {:induction false} SameSchemaIff(t: Word, cs: seq<SchemaColumn>, u: Word, ds: seq<SchemaColumn>)
    requires Framed(cs) && Framed(ds) && DistinctIds(cs) && DistinctIds(ds)
    ensures SchemaDigest(t, cs) == SchemaDigest(u, ds) <==> t == u && Members(cs) == Members(ds)
  {
    var xs, ys := SortBy(IdLess, cs), SortBy(IdLess, ds);
    SortedFramed(cs);
    SortedFramed(ds);
    var c2, d2 := ColumnsBytes(xs), ColumnsBytes(ys);
    var c1, d1 := U32(|cs|) + c2, U32(|ds|) + d2;
    RawsInjective([TAG_SCHEMA] + (U64(t) + c1), [TAG_SCHEMA] + (U64(u) + d1));
    Apart([TAG_SCHEMA], U64(t) + c1, [TAG_SCHEMA], U64(u) + d1);
    Apart(U64(t), c1, U64(u), d1);
    WordsApart(t, u);
    Apart(U32(|cs|), c2, U32(|ds|), d2);
    CountsApart(|cs|, |ds|);
    SameSortIffSameColumns(cs, ds);
    if |cs| == |ds| {
      ColumnListsApart(xs, ys);
    }
    if Members(cs) == Members(ds) {
      SameSetSameSize(cs, ds);
    }
  }
}
