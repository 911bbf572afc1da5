/** How a history grows: by one commit on a branch, over the tail it had or over a later
    one, and by a new branch. Well-formedness and sound masks are kept. */
module Growth {
  import opened Core
  import opened Versions
  import opened Lineage

  /** The chain in force at the branch's head. */
  ghost function Top(h: History, b: Name): Chain
    requires b in h && h[b] != []
  {
    h[b][|h[b]| - 1]
  }

  /** What the branch inherits at its head. */
  ghost function TopTail(h: History, b: Name): Chain
    requires b in h && h[b] != []
  {
    if Top(h, b) == [] then [] else Top(h, b)[1..]
  }

  /** The tail a branch may carry next: none for the root, otherwise a recorded
      chain of its parent that sees every ancestor at least as far as before. */
  ghost predicate NextTail(h: History, b: Name, tail: Chain)
    requires b in h && h[b] != []
  {
    if b == ROOT then tail == []
    else Recorded(h, tail) && Below(TopTail(h, b), tail)
  }

  /** The history after the branch takes one more seq, reading over the tail. */
  ghost function Extend(h: History, b: Name, tail: Chain): History
    requires b in h
  {
    h[b := h[b] + [[Segment(b, |h[b]|)] + tail]]
  }

  lemma {:induction false} TopRecorded(h: History, b: Name)
    requires WellFormed(h) && b in h
    ensures Known(h, b, |h[b]| - 1) && Recorded(h, Top(h, b)) && Top(h, b)[0] == Segment(b, |h[b]| - 1)
  {
    assert Linked(h, b, |h[b]| - 1);
  }

  lemma {:induction false} SameTailIsNext(h: History, b: Name)
    requires WellFormed(h) && b in h
    ensures NextTail(h, b, TopTail(h, b))
  {
    TopRecorded(h, b);
    RecordedTail(h, Top(h, b));
    if b == ROOT {
      assert Top(h, b)[1..] == [];
    }
  }

  lemma {:induction false} RecordedGrows(h: History, b: Name, tail: Chain, chain: Chain)
    requires b in h && Recorded(h, chain)
    ensures Recorded(Extend(h, b, tail), chain)
  {
  }

  /** The old and new chain of the branch, compared. */
  lemma {:induction false} BelowNew(h: History, b: Name, tail: Chain, u: int)
    requires WellFormed(h) && b in h && NextTail(h, b, tail) && Known(h, b, u)
    ensures Below(h[b][u], Top(h, b)) && Below(Top(h, b), [Segment(b, |h[b]|)] + tail)
    ensures Below(h[b][u], [Segment(b, |h[b]|)] + tail)
  {
    TopRecorded(h, b);
    RecordedTail(h, Top(h, b));
    var top, new' := Top(h, b), [Segment(b, |h[b]|)] + tail;
    assert top == [top[0]] + top[1..];
    forall i | 0 <= i < |top|
      ensures |top| == |new'| && top[i].branch == new'[i].branch && top[i].upto <= new'[i].upto
    {
      if i > 0 {
        assert top[1..][i - 1] == top[i] && new'[1..][i - 1] == new'[i];
      }
    }
  }

  lemma {:induction false} ExtendLinked(h: History, b: Name, tail: Chain, a: Name, s: int)
    requires WellFormed(h) && b in h && NextTail(h, b, tail) && Known(Extend(h, b, tail), a, s)
    ensures Linked(Extend(h, b, tail), a, s)
  {
    if Known(h, a, s) {
      assert Extend(h, b, tail)[a][s] == h[a][s] && Linked(h, a, s);
      if a != ROOT {
        RecordedGrows(h, b, tail, h[a][s][1..]);
      }
    } else {
      assert a == b && Extend(h, b, tail)[a][s][1..] == tail;
      if a != ROOT {
        RecordedGrows(h, b, tail, tail);
      }
    }
  }

  lemma {:induction false} ExtendBelow(h: History, b: Name, tail: Chain, a: Name, u: int, w: int)
    requires WellFormed(h) && b in h && NextTail(h, b, tail)
    requires Known(Extend(h, b, tail), a, u) && Known(Extend(h, b, tail), a, w) && u <= w
    ensures Below(Extend(h, b, tail)[a][u], Extend(h, b, tail)[a][w])
  {
    if Known(h, a, w) {
      assert Known(h, a, u) && Below(h[a][u], h[a][w]);
    } else if Known(h, a, u) {
      BelowNew(h, b, tail, u);
    }
  }

  /** A commit keeps the history well formed. */
  lemma {:induction false} ExtendWellFormed(h: History, b: Name, tail: Chain)
    requires WellFormed(h) && b in h && NextTail(h, b, tail)
    ensures WellFormed(Extend(h, b, tail))
  {
    var h' := Extend(h, b, tail);
    forall a, s | Known(h', a, s)
      ensures Linked(h', a, s)
    {
      ExtendLinked(h, b, tail, a, s);
    }
    forall a, u, w | Known(h', a, u) && Known(h', a, w) && u <= w
      ensures Below(h'[a][u], h'[a][w])
    {
      ExtendBelow(h, b, tail, a, u, w);
    }
  }

  // ----- masks -----

  lemma {:induction false} OverlayUnmoved(rows: seq<Version>, rows': seq<Version>, h: History, b: Name, n: int, chain: Chain)
    requires WellFormed(h) && Recorded(h, chain) && SameBelow(rows, rows', b, n) && OverlayMasked(rows, chain)
    requires b in h ==> |h[b]| <= n
    ensures OverlayMasked(rows', chain)
  {
    ViewUnmoved(rows, rows', h, chain, b, n);
    RecordedTail(h, chain);
    if |chain| > 1 {
      ViewUnmoved(rows, rows', h, chain[1..], b, n);
    } else {
      assert chain[1..] == [];
      SameView(rows, [], rows', []);
    }
  }

  lemma {:induction false} BetweenKept(rows: seq<Version>, rows': seq<Version>, b: Name, n: int, x: Chain, y: Chain, pk: PK, c: ColID)
    requires SameBelow(rows, rows', b, n) && Between(rows, x, y, pk, c)
    ensures Between(rows', x, y, pk, c)
  {
    var k :| 0 <= k < |x| && k < |y| && Touched(rows, x[k].branch, Min(x[k].upto, y[k].upto), Max(x[k].upto, y[k].upto), pk, c);
    assert Touched(rows', x[k].branch, Min(x[k].upto, y[k].upto), Max(x[k].upto, y[k].upto), pk, c);
  }

  lemma {:induction false} ChangeUnmoved(rows: seq<Version>, rows': seq<Version>, h: History, b: Name, n: int, x: Chain, y: Chain)
    requires WellFormed(h) && Recorded(h, x) && Recorded(h, y) && SameBelow(rows, rows', b, n) && ChangeMasked(rows, x, y)
    requires b in h ==> |h[b]| <= n
    ensures ChangeMasked(rows', x, y)
  {
    ViewUnmoved(rows, rows', h, x, b, n);
    ViewUnmoved(rows, rows', h, y, b, n);
    forall pk, c | Cell(View(rows', x), pk, c) != Cell(View(rows', y), pk, c)
      ensures Between(rows', x, y, pk, c)
    {
      BetweenKept(rows, rows', b, n, x, y, pk, c);
    }
  }

  lemma {:induction false} ChangeTriangle(rows: seq<Version>, x: Chain, y: Chain, z: Chain)
    requires ChangeMasked(rows, x, y) && ChangeMasked(rows, y, z) && Below(x, y) && Below(y, z)
    ensures ChangeMasked(rows, x, z)
  {
    forall pk, c | Cell(View(rows, x), pk, c) != Cell(View(rows, z), pk, c)
      ensures Between(rows, x, z, pk, c)
    {
      BetweenWider(rows, x, y, z, pk, c);
    }
  }

  lemma {:induction false} NoChange(rows: seq<Version>, x: Chain)
    ensures ChangeMasked(rows, x, x)
  {
  }

  lemma {:induction false} ExtendOverlay(rows: seq<Version>, rows': seq<Version>, h: History, b: Name, tail: Chain)
    requires WellFormed(h) && Masked(rows, h) && b in h && NextTail(h, b, tail)
    requires SameBelow(rows, rows', b, |h[b]|)
    requires OverlayMasked(rows', [Segment(b, |h[b]|)] + tail)
    ensures forall a, s :: Known(Extend(h, b, tail), a, s) ==> OverlayMasked(rows', Extend(h, b, tail)[a][s])
  {
    var h' := Extend(h, b, tail);
    forall a, s | Known(h', a, s)
      ensures OverlayMasked(rows', h'[a][s])
    {
      if Known(h, a, s) {
        assert h'[a][s] == h[a][s] && Linked(h, a, s);
        OverlayUnmoved(rows, rows', h, b, |h[b]|, h[a][s]);
      }
    }
  }

  lemma {:induction false} ExtendChange(rows: seq<Version>, rows': seq<Version>, h: History, b: Name, tail: Chain, a: Name, u: int, w: int)
    requires WellFormed(h) && Masked(rows, h) && b in h && NextTail(h, b, tail)
    requires SameBelow(rows, rows', b, |h[b]|)
    requires ChangeMasked(rows', Top(h, b), [Segment(b, |h[b]|)] + tail)
    requires Known(Extend(h, b, tail), a, u) && Known(Extend(h, b, tail), a, w) && u <= w
    ensures ChangeMasked(rows', Extend(h, b, tail)[a][u], Extend(h, b, tail)[a][w])
  {
    var n := |h[b]|;
    if Known(h, a, w) {
      assert Linked(h, a, u) && Linked(h, a, w);
      ChangeUnmoved(rows, rows', h, b, n, h[a][u], h[a][w]);
    } else if Known(h, a, u) {
      assert Linked(h, b, u);
      BelowNew(h, b, tail, u);
      TopRecorded(h, b);
      ChangeUnmoved(rows, rows', h, b, n, h[b][u], Top(h, b));
      ChangeTriangle(rows', h[b][u], Top(h, b), [Segment(b, n)] + tail);
    } else {
      NoChange(rows', Extend(h, b, tail)[a][u]);
    }
  }

  /** A commit whose masks cover what it changed, against the old view of the
      branch and against what the branch now inherits, keeps every mask sound. */
  lemma {:induction false} ExtendMasked(rows: seq<Version>, rows': seq<Version>, h: History, b: Name, tail: Chain)
    requires WellFormed(h) && Masked(rows, h) && b in h && NextTail(h, b, tail)
    requires SameBelow(rows, rows', b, |h[b]|)
    requires OverlayMasked(rows', [Segment(b, |h[b]|)] + tail)
    requires ChangeMasked(rows', Top(h, b), [Segment(b, |h[b]|)] + tail)
    ensures WellFormed(Extend(h, b, tail)) && Masked(rows', Extend(h, b, tail))
  {
    var h' := Extend(h, b, tail);
    ExtendWellFormed(h, b, tail);
    ExtendOverlay(rows, rows', h, b, tail);
    forall a, u, w | Known(h', a, u) && Known(h', a, w) && u <= w
      ensures ChangeMasked(rows', h'[a][u], h'[a][w])
    {
      ExtendChange(rows, rows', h, b, tail, a, u, w);
    }
  }

  // ----- a new branch -----

  /** The history with a branch forked from another branch's head. */
  ghost function Fork(h: History, name: Name, from: Name): History
    requires from in h && h[from] != []
  {
    h[name := [[Segment(name, 0)] + Top(h, from)]]
  }

  lemma {:induction false} ForkRecords(h: History, name: Name, from: Name)
    requires WellFormed(h) && from in h && name !in h
    ensures forall chain {:trigger Recorded(Fork(h, name, from), chain)} :: Recorded(h, chain) ==> Recorded(Fork(h, name, from), chain)
  {
  }

  lemma {:induction false} ForkWellFormed(h: History, name: Name, from: Name)
    requires WellFormed(h) && from in h && name !in h
    ensures WellFormed(Fork(h, name, from))
  {
    var h' := Fork(h, name, from);
    TopRecorded(h, from);
    ForkRecords(h, name, from);
    forall a, s | Known(h', a, s)
      ensures Linked(h', a, s)
    {
      if a == name {
        assert h'[a][s][1..] == Top(h, from);
      } else {
        assert Known(h, a, s) && Linked(h, a, s);
      }
    }
    forall a, u, w | Known(h', a, u) && Known(h', a, w) && u <= w
      ensures Below(h'[a][u], h'[a][w])
    {
      if a != name {
        assert Known(h, a, u) && Known(h, a, w);
      }
    }
  }

  /** A branch with nothing of its own reads as what it inherits. */
  lemma {:induction false} ForkView(rows: seq<Version>, name: Name, tail: Chain)
    requires forall i :: 0 <= i < |rows| && rows[i].session == 0 && rows[i].branch == name ==> 0 < rows[i].from
    ensures View(rows, [Segment(name, 0)] + tail) == View(rows, tail)
  {
    var chain := [Segment(name, 0)] + tail;
    assert chain[1..] == tail;
    forall pk
      ensures Live(rows, chain, pk) == Live(rows, tail, pk)
    {
      AtIsNone(rows, name, 0, pk);
    }
    SameView(rows, tail, rows, chain);
  }

  lemma {:induction false} ForkMasked(rows: seq<Version>, h: History, name: Name, from: Name)
    requires WellFormed(h) && Masked(rows, h) && from in h && name !in h
    requires forall i :: 0 <= i < |rows| && rows[i].session == 0 && rows[i].branch == name ==> 0 < rows[i].from
    ensures WellFormed(Fork(h, name, from)) && Masked(rows, Fork(h, name, from))
  {
    var h' := Fork(h, name, from);
    ForkWellFormed(h, name, from);
    ForkRecords(h, name, from);
    ForkView(rows, name, Top(h, from));
    forall a, s | Known(h', a, s)
      ensures OverlayMasked(rows, h'[a][s])
    {
      if a == name {
        assert h'[a][s][1..] == Top(h, from);
      } else {
        assert Known(h, a, s);
      }
    }
    forall a, u, w | Known(h', a, u) && Known(h', a, w) && u <= w
      ensures ChangeMasked(rows, h'[a][u], h'[a][w])
    {
      if a == name {
        NoChange(rows, h'[a][u]);
      } else {
        assert Known(h, a, u) && Known(h, a, w);
      }
    }
  }
}
