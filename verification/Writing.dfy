/** A batch of versions that turns a branch's view into a given table: one version for
    each key on which the two differ, with a mask over every cell it changes. What such
    a batch reads as, and what its masks say. */
module Writing {
  import opened Wrappers
  import opened Core
  import opened Versions
  import opened Staging

  ghost predicate WritesKey(vs: seq<Version>, current: Table, t: Table, cols: set<ColID>, pk: PK, i: int)
    requires 0 <= i < |vs|
  {
    && vs[i].pk == pk
    && Image(vs[i]) == Lookup(t, pk)
    && vs[i].changed == MaskOf(Lookup(current, pk), Lookup(t, pk), cols)
    && (vs[i].op == Insert ==> pk !in current) && (vs[i].op == Update ==> pk in current)
  }

  ghost predicate WritesAt(vs: seq<Version>, current: Table, t: Table, cols: set<ColID>, pk: PK) {
    || (exists i :: 0 <= i < |vs| && WritesKey(vs, current, t, cols, pk, i))
    || (!Wrote(vs, pk) && Lookup(t, pk) == Lookup(current, pk))
  }

  /** The batch turns the current table into t: each key is either written once,
      with its new image and the mask of what changed, or left as it was. */
  ghost predicate Writes(vs: seq<Version>, current: Table, t: Table, cols: set<ColID>) {
    forall pk :: WritesAt(vs, current, t, cols, pk)
  }

  /** A commit's worth of versions for a branch at a seq, and the two tables it leads
      between. */
  datatype Plan = Plan(branch: Name, n: int, versions: seq<Version>, before: Table, after: Table, cols: set<ColID>)

  ghost predicate SoundPlan(plan: Plan) {
    match plan
    case Plan(b, n, vs, before, after, cols) =>
      Batch(vs, b, n) && MasksWithin(vs, cols) && Writes(vs, before, after, cols)
  }

  ghost function SoundPlans(): iset<Plan> {
    iset plan: Plan | SoundPlan(plan)
  }

  // ----- the store around the branch's head -----

  lemma {:induction false} TiledHigher(rows: seq<Version>, heads: map<Name, int>, heads': map<Name, int>)
    requires Tiled(rows, heads)
    requires forall b :: b in heads ==> b in heads' && heads[b] <= heads'[b]
    ensures Tiled(rows, heads')
  {
    forall i | 0 <= i < |rows|
      ensures InRange(rows[i], heads')
    {
      assert InRange(rows[i], heads);
    }
  }

  lemma {:induction false} UntouchedAbove(rows: seq<Version>, heads: map<Name, int>, b: Name, n: int)
    requires Tiled(rows, heads) && b in heads && heads[b] < n
    ensures forall pk :: Untouched(rows, b, n, pk)
  {
    forall i | 0 <= i < |rows|
      ensures rows[i].session == 0 && rows[i].branch == b ==> rows[i].from < n
    {
      assert InRange(rows[i], heads);
    }
  }

  /** Before anything is written at the next seq, the branch reads there as at its head. */
  lemma {:induction false} AtNextSeq(rows: seq<Version>, heads: map<Name, int>, b: Name, pk: PK)
    requires Tiled(rows, heads) && b in heads && 0 <= heads[b] < MAX_SEQ - 1
    ensures At(rows, b, heads[b] + 1, pk) == At(rows, b, heads[b], pk)
  {
    var s := heads[b];
    var f, g := FirstCover(rows, b, s, pk), FirstCover(rows, b, s + 1, pk);
    FirstCoverIsFirst(rows, b, s, pk);
    FirstCoverIsFirst(rows, b, s + 1, pk);
    assert f >= 0 ==> InRange(rows[f], heads) && Covers(rows[f], b, s + 1, pk);
    assert g >= 0 ==> InRange(rows[g], heads) && Covers(rows[g], b, s, pk);
  }

  // ----- the effect of the batch -----

  /** The view at the new seq is the table the batch writes. */
  lemma {:induction false} WrittenView(rows: seq<Version>, vs: seq<Version>, b: Name, n: int, tail: Chain, heads: map<Name, int>,
      current: Table, t: Table, cols: set<ColID>)
    requires Tiled(rows, heads) && b in heads && heads[b] == n - 1 && 1 <= n < MAX_SEQ
    requires Batch(vs, b, n) && Writes(vs, current, t, cols)
    requires current == View(rows, [Segment(b, n - 1)] + tail)
    requires forall pk :: Live(WriteAll(rows, vs), tail, pk) == Live(rows, tail, pk)
    ensures View(WriteAll(rows, vs), [Segment(b, n)] + tail) == t
  {
    var r := WriteAll(rows, vs);
    var heads' := heads[b := n];
    TiledHigher(rows, heads, heads');
    UntouchedAbove(rows, heads, b, n);
    forall pk
      ensures Lookup(t, pk) == Live(r, [Segment(b, n)] + tail, pk)
    {
      assert ([Segment(b, n)] + tail)[1..] == tail && ([Segment(b, n - 1)] + tail)[1..] == tail;
      WriteAllAt(rows, vs, b, n, heads', pk);
      AtNextSeq(rows, heads, b, pk);
      assert WritesAt(vs, current, t, cols, pk);
      ViewAt(rows, [Segment(b, n - 1)] + tail, pk);
      if exists i :: 0 <= i < |vs| && WritesKey(vs, current, t, cols, pk, i) {
        var i :| 0 <= i < |vs| && WritesKey(vs, current, t, cols, pk, i);
        assert At(r, b, n, pk) == Some(Image(vs[i]));
      }
    }
    ViewIs(r, [Segment(b, n)] + tail, t);
  }

  /** The batch's masks cover every cell it changes. */
  lemma {:induction false} WrittenMask(rows: seq<Version>, vs: seq<Version>, b: Name, n: int,
      current: Table, t: Table, cols: set<ColID>, pk: PK, c: ColID)
    requires Batch(vs, b, n) && Writes(vs, current, t, cols) && Total(current, cols) && Total(t, cols)
    requires Cell(current, pk, c) != Cell(t, pk, c)
    ensures Touched(WriteAll(rows, vs), b, n - 1, n, pk, c)
  {
    assert WritesAt(vs, current, t, cols, pk);
    var i :| 0 <= i < |vs| && WritesKey(vs, current, t, cols, pk, i);
    assert c in cols;
    assert WroteMask(vs, pk, c);
    WriteAllTouched(rows, vs, b, n, n - 1, pk, c);
  }

  // ----- the batches the engine builds -----

  /** What a list of versions built key by key so far says. */
  ghost predicate Built(vs: seq<Version>, b: Name, n: int, current: Table, t: Table, cols: set<ColID>, keys: seq<PK>) {
    && Batch(vs, b, n)
    && MasksWithin(vs, cols)
    && (forall i :: 0 <= i < |vs| ==> vs[i].pk in keys)
    && (forall pk :: pk in keys ==> WritesAt(vs, current, t, cols, pk))
  }

  /** Appending the versions of one more key. */
  lemma {:induction false} BuiltSnoc(vs: seq<Version>, more: seq<Version>, b: Name, n: int, current: Table, t: Table, cols: set<ColID>, keys: seq<PK>, k: PK)
    requires Built(vs, b, n, current, t, cols, keys) && k !in keys
    requires more == [] ==> Lookup(t, k) == Lookup(current, k)
    requires more != [] ==> |more| == 1 && FreshFor(more[0], b, n) && WritesKey(more, current, t, cols, k, 0)
    ensures Built(vs + more, b, n, current, t, cols, keys + [k])
  {
    var r := vs + more;
    forall pk | pk in keys + [k]
      ensures WritesAt(r, current, t, cols, pk)
    {
      if pk == k {
        assert !Wrote(vs, k);
        if more != [] {
          assert WritesKey(r, current, t, cols, k, |vs|);
        }
      } else {
        assert WritesAt(vs, current, t, cols, pk);
        if exists i :: 0 <= i < |vs| && WritesKey(vs, current, t, cols, pk, i) {
          var i :| 0 <= i < |vs| && WritesKey(vs, current, t, cols, pk, i);
          assert WritesKey(r, current, t, cols, pk, i);
        } else {
          assert !Wrote(r, pk);
        }
      }
    }
    forall i | 0 <= i < |r|
      ensures r[i].pk in keys + [k] && r[i].changed <= cols
    {
      assert i >= |vs| ==> r[i] == more[0];
    }
  }

  /** A key outside the list was left alone. */
  lemma {:induction false} BuiltWrites(vs: seq<Version>, b: Name, n: int, current: Table, t: Table, cols: set<ColID>, keys: seq<PK>)
    requires Built(vs, b, n, current, t, cols, keys)
    requires forall pk :: pk !in keys ==> Lookup(t, pk) == Lookup(current, pk)
    ensures Writes(vs, current, t, cols)
  {
    forall pk
      ensures WritesAt(vs, current, t, cols, pk)
    {
      if pk !in keys {
        assert !Wrote(vs, pk);
      }
    }
  }
}
