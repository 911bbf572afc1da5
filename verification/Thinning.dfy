/** History thinning (internal/store/retention.go, Prune). */
module Thinning {
  import opened Wrappers
  import opened Core
  import opened Versions
  import opened Lineage

  /** A candidate: closed, no later than the cutoff. Open versions never are. */
  predicate Doomed(v: Version, b: Name, cutoff: int) {
    v.session == 0 && v.branch == b && v.to != MAX_SEQ && v.to <= cutoff
  }

  /** One row of the grouping query: what a key's candidates span together. */
  datatype Span = Span(lo: int, hi: int)

  ghost predicate DoomedFor(v: Version, b: Name, cutoff: int, pk: PK) {
    Doomed(v, b, cutoff) && v.pk == pk
  }

  /** The span runs from the earliest start to the latest end of the key's candidates. */
  ghost predicate Spans(rows: seq<Version>, b: Name, cutoff: int, pk: PK, sp: Span) {
    && (exists i :: 0 <= i < |rows| && DoomedFor(rows[i], b, cutoff, pk) && rows[i].from == sp.lo)
    && (exists i :: 0 <= i < |rows| && DoomedFor(rows[i], b, cutoff, pk) && rows[i].to == sp.hi)
    && (forall i :: 0 <= i < |rows| && DoomedFor(rows[i], b, cutoff, pk) ==> sp.lo <= rows[i].from && rows[i].to <= sp.hi)
  }

  /** The UPDATE stretches the version that starts the span; the DELETE drops the
      candidates that start later. */
  function ThinOne(v: Version, b: Name, cutoff: int, pk: PK, sp: Span): Option<Version> {
    if !Committed(v, b, pk) then Some(v)
    else if v.from == sp.lo then Some(v.(to := sp.hi))
    else if v.from > sp.lo && v.to != MAX_SEQ && v.to <= cutoff then None
    else Some(v)
  }

  function Thin(rows: seq<Version>, b: Name, cutoff: int, pk: PK, sp: Span): seq<Version> {
    if rows == [] then []
    else
      var rest := Thin(rows[..|rows| - 1], b, cutoff, pk, sp);
      match ThinOne(rows[|rows| - 1], b, cutoff, pk, sp)
      case Some(v) => rest + [v]
      case None => rest
  }

  lemma {:induction false} ThinMembers(rows: seq<Version>, b: Name, cutoff: int, pk: PK, sp: Span, w: Version)
    ensures w in Thin(rows, b, cutoff, pk, sp) <==> exists i :: 0 <= i < |rows| && ThinOne(rows[i], b, cutoff, pk, sp) == Some(w)
  {
    if rows != [] {
      var n := |rows| - 1;
      ThinMembers(rows[..n], b, cutoff, pk, sp, w);
      if w in Thin(rows[..n], b, cutoff, pk, sp) {
        var i :| 0 <= i < n && ThinOne(rows[..n][i], b, cutoff, pk, sp) == Some(w);
        assert ThinOne(rows[i], b, cutoff, pk, sp) == Some(w);
      }
      if i :| 0 <= i < |rows| && ThinOne(rows[i], b, cutoff, pk, sp) == Some(w) {
        if i < n {
          assert ThinOne(rows[..n][i], b, cutoff, pk, sp) == Some(w);
        }
      }
    }
  }

  // ----- what the tiling says about a key's candidates -----

  /** In a tiled store a version of the key starts the span, is a candidate inside it,
      or starts at or after its end. */
  lemma {:induction false} AroundSpan(rows: seq<Version>, heads: map<Name, int>, b: Name, cutoff: int, pk: PK, sp: Span, i: int)
    requires Tiled(rows, heads) && Spans(rows, b, cutoff, pk, sp) && cutoff < MAX_SEQ
    requires 0 <= i < |rows| && Committed(rows[i], b, pk)
    ensures sp.lo < sp.hi <= cutoff
    ensures Doomed(rows[i], b, cutoff) || sp.hi <= rows[i].from
    ensures sp.lo <= rows[i].from
  {
    var f :| 0 <= f < |rows| && DoomedFor(rows[f], b, cutoff, pk) && rows[f].from == sp.lo;
    var l :| 0 <= l < |rows| && DoomedFor(rows[l], b, cutoff, pk) && rows[l].to == sp.hi;
    assert InRange(rows[f], heads) && InRange(rows[l], heads) && InRange(rows[i], heads);
    assert i < l ==> !Overlap(rows[i], rows[l]);
    assert l < i ==> !Overlap(rows[l], rows[i]);
  }

  /** Only one version starts the span. */
  lemma {:induction false} SpanStart(rows: seq<Version>, heads: map<Name, int>, b: Name, cutoff: int, pk: PK, sp: Span, i: int, j: int)
    requires Tiled(rows, heads) && Spans(rows, b, cutoff, pk, sp) && cutoff < MAX_SEQ
    requires 0 <= i < j < |rows| && Committed(rows[i], b, pk) && Committed(rows[j], b, pk)
    ensures rows[i].from != sp.lo || rows[j].from != sp.lo
  {
    assert InRange(rows[i], heads) && InRange(rows[j], heads);
    assert !Overlap(rows[i], rows[j]);
  }

  lemma {:induction false} ThinApart(rows: seq<Version>, heads: map<Name, int>, b: Name, cutoff: int, pk: PK, sp: Span, i: int, j: int)
    requires Tiled(rows, heads) && Spans(rows, b, cutoff, pk, sp) && cutoff < MAX_SEQ
    requires 0 <= i < j < |rows| && rows[i].session == 0 && Committed(rows[j], rows[i].branch, rows[i].pk)
    requires ThinOne(rows[i], b, cutoff, pk, sp).Some? && ThinOne(rows[j], b, cutoff, pk, sp).Some?
    ensures !Overlap(ThinOne(rows[i], b, cutoff, pk, sp).value, ThinOne(rows[j], b, cutoff, pk, sp).value)
  {
    assert !Overlap(rows[i], rows[j]);
    if Committed(rows[i], b, pk) {
      AroundSpan(rows, heads, b, cutoff, pk, sp, i);
      AroundSpan(rows, heads, b, cutoff, pk, sp, j);
      SpanStart(rows, heads, b, cutoff, pk, sp, i, j);
    }
  }

  // ----- thinning one key keeps the store's shape -----

  lemma {:induction false} ThinDisjoint(rows: seq<Version>, b: Name, cutoff: int, pk: PK, sp: Span)
    requires forall i, j :: 0 <= i < j < |rows| && rows[i].session == 0 && Committed(rows[j], rows[i].branch, rows[i].pk) &&
                            ThinOne(rows[i], b, cutoff, pk, sp).Some? && ThinOne(rows[j], b, cutoff, pk, sp).Some? ==>
                            !Overlap(ThinOne(rows[i], b, cutoff, pk, sp).value, ThinOne(rows[j], b, cutoff, pk, sp).value)
    ensures Disjoint(Thin(rows, b, cutoff, pk, sp))
  {
    if rows != [] {
      var n := |rows| - 1;
      var rest := Thin(rows[..n], b, cutoff, pk, sp);
      assert forall i :: 0 <= i < n ==> rows[..n][i] == rows[i];
      ThinDisjoint(rows[..n], b, cutoff, pk, sp);
      var last := ThinOne(rows[n], b, cutoff, pk, sp);
      forall i | last.Some? && 0 <= i < |rest| && rest[i].session == 0 && Committed(last.value, rest[i].branch, rest[i].pk)
        ensures !Overlap(rest[i], last.value)
      {
        assert rest[i] in rest;
        ThinMembers(rows[..n], b, cutoff, pk, sp, rest[i]);
        var j :| 0 <= j < n && ThinOne(rows[..n][j], b, cutoff, pk, sp) == Some(rest[i]);
        assert ThinOne(rows[j], b, cutoff, pk, sp) == Some(rest[i]);
      }
    }
  }

  /** What each remaining version came from. */
  lemma {:induction false} ThinFrom(rows: seq<Version>, b: Name, cutoff: int, pk: PK, sp: Span, k: int) returns (i: int)
    requires 0 <= k < |Thin(rows, b, cutoff, pk, sp)|
    ensures 0 <= i < |rows| && ThinOne(rows[i], b, cutoff, pk, sp) == Some(Thin(rows, b, cutoff, pk, sp)[k])
  {
    var r := Thin(rows, b, cutoff, pk, sp);
    assert r[k] in r;
    ThinMembers(rows, b, cutoff, pk, sp, r[k]);
    i :| 0 <= i < |rows| && ThinOne(rows[i], b, cutoff, pk, sp) == Some(r[k]);
  }

  lemma {:induction false} ThinTo(rows: seq<Version>, b: Name, cutoff: int, pk: PK, sp: Span, i: int) returns (k: int)
    requires 0 <= i < |rows| && ThinOne(rows[i], b, cutoff, pk, sp).Some?
    ensures 0 <= k < |Thin(rows, b, cutoff, pk, sp)|
    ensures Thin(rows, b, cutoff, pk, sp)[k] == ThinOne(rows[i], b, cutoff, pk, sp).value
  {
    var r, w := Thin(rows, b, cutoff, pk, sp), ThinOne(rows[i], b, cutoff, pk, sp).value;
    ThinMembers(rows, b, cutoff, pk, sp, w);
    k :| 0 <= k < |r| && r[k] == w;
  }

  lemma {:induction false} ThinTiled(rows: seq<Version>, heads: map<Name, int>, b: Name, cutoff: int, pk: PK, sp: Span)
    requires Tiled(rows, heads) && Spans(rows, b, cutoff, pk, sp) && cutoff < MAX_SEQ
    ensures Tiled(Thin(rows, b, cutoff, pk, sp), heads)
  {
    var r := Thin(rows, b, cutoff, pk, sp);
    forall i, j | 0 <= i < j < |rows| && rows[i].session == 0 && Committed(rows[j], rows[i].branch, rows[i].pk) &&
                  ThinOne(rows[i], b, cutoff, pk, sp).Some? && ThinOne(rows[j], b, cutoff, pk, sp).Some?
      ensures !Overlap(ThinOne(rows[i], b, cutoff, pk, sp).value, ThinOne(rows[j], b, cutoff, pk, sp).value)
    {
      ThinApart(rows, heads, b, cutoff, pk, sp, i, j);
    }
    ThinDisjoint(rows, b, cutoff, pk, sp);
    forall k | 0 <= k < |r|
      ensures InRange(r[k], heads)
    {
      var i := ThinFrom(rows, b, cutoff, pk, sp, k);
      assert InRange(rows[i], heads);
      var l :| 0 <= l < |rows| && DoomedFor(rows[l], b, cutoff, pk) && rows[l].to == sp.hi;
      assert InRange(rows[l], heads);
      if Committed(rows[i], b, pk) {
        AroundSpan(rows, heads, b, cutoff, pk, sp, i);
      }
    }
  }

  /** A successor of a version that stays, stays. */
  lemma {:induction false} ThinFollowed(rows: seq<Version>, heads: map<Name, int>, b: Name, cutoff: int, pk: PK, sp: Span)
    requires Tiled(rows, heads) && Followed(rows) && Spans(rows, b, cutoff, pk, sp) && cutoff < MAX_SEQ
    ensures Followed(Thin(rows, b, cutoff, pk, sp))
  {
    var r := Thin(rows, b, cutoff, pk, sp);
    forall k | 0 <= k < |r| && r[k].session == 0 && r[k].to != MAX_SEQ
      ensures FollowedAt(r, k)
    {
      var i := ThinFrom(rows, b, cutoff, pk, sp, k);
      var j := Successor(rows, heads, b, cutoff, pk, sp, i);
      var k' := ThinTo(rows, b, cutoff, pk, sp, j);
      assert Committed(r[k'], r[k].branch, r[k].pk) && r[k'].from == r[k].to;
    }
  }

  lemma {:induction false} Successor(rows: seq<Version>, heads: map<Name, int>, b: Name, cutoff: int, pk: PK, sp: Span, i: int) returns (j: int)
    requires Tiled(rows, heads) && Followed(rows) && Spans(rows, b, cutoff, pk, sp) && cutoff < MAX_SEQ
    requires 0 <= i < |rows| && rows[i].session == 0 && ThinOne(rows[i], b, cutoff, pk, sp).Some?
    requires ThinOne(rows[i], b, cutoff, pk, sp).value.to != MAX_SEQ
    ensures 0 <= j < |rows| && Committed(rows[j], rows[i].branch, rows[i].pk)
    ensures ThinOne(rows[j], b, cutoff, pk, sp) == Some(rows[j]) && rows[j].from == ThinOne(rows[i], b, cutoff, pk, sp).value.to
  {
    var end := i;
    if Committed(rows[i], b, pk) && rows[i].from == sp.lo {
      end :| 0 <= end < |rows| && DoomedFor(rows[end], b, cutoff, pk) && rows[end].to == sp.hi;
    }
    assert FollowedAt(rows, end);
    j :| 0 <= j < |rows| && Committed(rows[j], rows[end].branch, rows[end].pk) && rows[j].from == rows[end].to;
    assert InRange(rows[j], heads) && InRange(rows[end], heads);
    if Committed(rows[j], b, pk) {
      AroundSpan(rows, heads, b, cutoff, pk, sp, i);
      AroundSpan(rows, heads, b, cutoff, pk, sp, j);
    }
  }

  // ----- and what it changes for a reader -----

  /** Inside the span the key now reads as its oldest version did; everywhere else, and
      for every other key and branch, nothing changes. */
  lemma {:induction false} ThinReads(rows: seq<Version>, heads: map<Name, int>, b: Name, cutoff: int, pk: PK, sp: Span, first: int,
      b': Name, s: int, k: PK)
    requires Tiled(rows, heads) && Spans(rows, b, cutoff, pk, sp) && cutoff < MAX_SEQ
    requires 0 <= first < |rows| && Committed(rows[first], b, pk) && rows[first].from == sp.lo
    ensures At(Thin(rows, b, cutoff, pk, sp), b', s, k) ==
      if b' == b && k == pk && sp.lo <= s < sp.hi then Some(Image(rows[first])) else At(rows, b', s, k)
  {
    var r := Thin(rows, b, cutoff, pk, sp);
    ThinTiled(rows, heads, b, cutoff, pk, sp);
    if b' == b && k == pk && sp.lo <= s < sp.hi {
      var at := ThinTo(rows, b, cutoff, pk, sp, first);
      AtIs(r, at, b, s, pk);
    } else {
      ThinReadsOutside(rows, heads, b, cutoff, pk, sp, b', s, k);
    }
  }

  lemma {:induction false} ThinReadsOutside(rows: seq<Version>, heads: map<Name, int>, b: Name, cutoff: int, pk: PK, sp: Span, b': Name, s: int, k: PK)
    requires Tiled(rows, heads) && Spans(rows, b, cutoff, pk, sp) && cutoff < MAX_SEQ && Disjoint(Thin(rows, b, cutoff, pk, sp))
    requires !(b' == b && k == pk && sp.lo <= s < sp.hi)
    ensures At(Thin(rows, b, cutoff, pk, sp), b', s, k) == At(rows, b', s, k)
  {
    var r := Thin(rows, b, cutoff, pk, sp);
    var f := FirstCover(rows, b', s, k);
    if f >= 0 {
      if Committed(rows[f], b, pk) {
        AroundSpan(rows, heads, b, cutoff, pk, sp, f);
      }
      var at := ThinTo(rows, b, cutoff, pk, sp, f);
      AtIs(r, at, b', s, k);
    } else {
      FirstCoverIsFirst(rows, b', s, k);
      forall n | 0 <= n < |r|
        ensures !Covers(r[n], b', s, k)
      {
        var i := ThinFrom(rows, b, cutoff, pk, sp, n);
      }
      AtIsNone(r, b', s, k);
    }
  }

  // ----- thinning key after key -----

  /** A reader at or after the cutoff, or on another branch, sees no difference. */
  ghost predicate SameAfter(rows: seq<Version>, rows': seq<Version>, b: Name, cutoff: int) {
    forall b', s, k {:trigger At(rows', b', s, k)} :: b' != b || s >= cutoff ==> At(rows', b', s, k) == At(rows, b', s, k)
  }

  /** Whatever is no candidate, open versions and staged rows included, is still there as
      it was, and nothing like it is new. */
  ghost predicate SameCurrent(rows: seq<Version>, rows': seq<Version>, b: Name, cutoff: int) {
    forall v: Version :: !Doomed(v, b, cutoff) ==> (v in rows' <==> v in rows)
  }

  ghost predicate OnlyOne(rows: seq<Version>, b: Name, cutoff: int, pk: PK) {
    forall i, j :: 0 <= i < j < |rows| && DoomedFor(rows[i], b, cutoff, pk) ==> !DoomedFor(rows[j], b, cutoff, pk)
  }

  lemma {:induction false} ThinSameAfter(rows: seq<Version>, heads: map<Name, int>, b: Name, cutoff: int, pk: PK, sp: Span)
    requires Tiled(rows, heads) && Spans(rows, b, cutoff, pk, sp) && cutoff < MAX_SEQ
    ensures SameAfter(rows, Thin(rows, b, cutoff, pk, sp), b, cutoff)
  {
    ThinTiled(rows, heads, b, cutoff, pk, sp);
    var f :| 0 <= f < |rows| && DoomedFor(rows[f], b, cutoff, pk) && rows[f].from == sp.lo;
    AroundSpan(rows, heads, b, cutoff, pk, sp, f);
    forall b', s, k | b' != b || s >= cutoff
      ensures At(Thin(rows, b, cutoff, pk, sp), b', s, k) == At(rows, b', s, k)
    {
      ThinReadsOutside(rows, heads, b, cutoff, pk, sp, b', s, k);
    }
  }

  lemma {:induction false} ThinSameCurrent(rows: seq<Version>, heads: map<Name, int>, b: Name, cutoff: int, pk: PK, sp: Span)
    requires Tiled(rows, heads) && Spans(rows, b, cutoff, pk, sp) && cutoff < MAX_SEQ
    ensures SameCurrent(rows, Thin(rows, b, cutoff, pk, sp), b, cutoff)
  {
    forall v: Version | !Doomed(v, b, cutoff)
      ensures v in Thin(rows, b, cutoff, pk, sp) <==> v in rows
    {
      ThinMembers(rows, b, cutoff, pk, sp, v);
      if v in rows {
        var i :| 0 <= i < |rows| && rows[i] == v;
        if Committed(v, b, pk) {
          AroundSpan(rows, heads, b, cutoff, pk, sp, i);
        }
        assert ThinOne(rows[i], b, cutoff, pk, sp) == Some(v);
      }
      if v in Thin(rows, b, cutoff, pk, sp) {
        var i :| 0 <= i < |rows| && ThinOne(rows[i], b, cutoff, pk, sp) == Some(v);
        if Committed(rows[i], b, pk) {
          AroundSpan(rows, heads, b, cutoff, pk, sp, i);
        }
      }
    }
  }

  /** The thinned key has one candidate left, and the other keys keep their spans. */
  lemma {:induction false} ThinOthers(rows: seq<Version>, heads: map<Name, int>, b: Name, cutoff: int, pk: PK, sp: Span, k: PK, spk: Span)
    requires Tiled(rows, heads) && Spans(rows, b, cutoff, pk, sp) && cutoff < MAX_SEQ
    requires k != pk && Spans(rows, b, cutoff, k, spk)
    ensures Spans(Thin(rows, b, cutoff, pk, sp), b, cutoff, k, spk)
  {
    var r := Thin(rows, b, cutoff, pk, sp);
    var f :| 0 <= f < |rows| && DoomedFor(rows[f], b, cutoff, k) && rows[f].from == spk.lo;
    var l :| 0 <= l < |rows| && DoomedFor(rows[l], b, cutoff, k) && rows[l].to == spk.hi;
    var f' := ThinTo(rows, b, cutoff, pk, sp, f);
    var l' := ThinTo(rows, b, cutoff, pk, sp, l);
    assert DoomedFor(r[f'], b, cutoff, k) && DoomedFor(r[l'], b, cutoff, k);
    forall n | 0 <= n < |r| && DoomedFor(r[n], b, cutoff, k)
      ensures spk.lo <= r[n].from && r[n].to <= spk.hi
    {
      var i := ThinFrom(rows, b, cutoff, pk, sp, n);
      assert DoomedFor(rows[i], b, cutoff, k);
    }
  }

  lemma {:induction false} ThinOnlyOne(rows: seq<Version>, heads: map<Name, int>, b: Name, cutoff: int, pk: PK, sp: Span, k: PK)
    requires Tiled(rows, heads) && Spans(rows, b, cutoff, pk, sp) && cutoff < MAX_SEQ
    requires k == pk || OnlyOne(rows, b, cutoff, k)
    ensures OnlyOne(Thin(rows, b, cutoff, pk, sp), b, cutoff, k)
  {
    var r := Thin(rows, b, cutoff, pk, sp);
    ThinTiled(rows, heads, b, cutoff, pk, sp);
    forall m, n | 0 <= m < n < |r| && DoomedFor(r[m], b, cutoff, k)
      ensures !DoomedFor(r[n], b, cutoff, k)
    {
      var i := ThinFrom(rows, b, cutoff, pk, sp, m);
      var j := ThinFrom(rows, b, cutoff, pk, sp, n);
      assert InRange(r[m], heads) && InRange(r[n], heads);
      assert DoomedFor(r[n], b, cutoff, k) ==> !Overlap(r[m], r[n]);
      if k == pk && Committed(rows[i], b, pk) && Committed(rows[j], b, pk) {
        AroundSpan(rows, heads, b, cutoff, pk, sp, i);
        AroundSpan(rows, heads, b, cutoff, pk, sp, j);
      }
    }
  }

  // ----- what is read before the cutoff -----

  /** The version that starts the span of a key's candidates. */
  ghost predicate SpanFrom(rows: seq<Version>, b: Name, cutoff: int, pk: PK, sp: Span, first: int) {
    Spans(rows, b, cutoff, pk, sp) && 0 <= first < |rows| && Committed(rows[first], b, pk) && rows[first].from == sp.lo
  }

  ghost predicate KeySame(rows: seq<Version>, rows': seq<Version>, b: Name, pk: PK) {
    forall s {:trigger At(rows', b, s, pk)} :: At(rows', b, s, pk) == At(rows, b, s, pk)
  }

  /** Over the span of its candidates the key reads as its oldest one did, and everywhere else
      as before; a key without candidates reads as before at every seq. */
  ghost predicate KeyThinned(rows: seq<Version>, rows': seq<Version>, b: Name, cutoff: int, pk: PK) {
    && (forall sp, first, s {:trigger SpanFrom(rows, b, cutoff, pk, sp, first), At(rows', b, s, pk)} ::
          SpanFrom(rows, b, cutoff, pk, sp, first) ==>
            At(rows', b, s, pk) == if sp.lo <= s < sp.hi then Some(Image(rows[first])) else At(rows, b, s, pk))
    && ((forall i :: 0 <= i < |rows| ==> !DoomedFor(rows[i], b, cutoff, pk)) ==> KeySame(rows, rows', b, pk))
  }

  lemma {:induction false} SpansOnce(rows: seq<Version>, b: Name, cutoff: int, pk: PK, sp: Span, sp': Span)
    requires Spans(rows, b, cutoff, pk, sp) && Spans(rows, b, cutoff, pk, sp')
    ensures sp == sp'
  {
  }

  /** The first of the span is in force where the span begins. */
  lemma {:induction false} FirstReads(rows: seq<Version>, heads: map<Name, int>, b: Name, cutoff: int, pk: PK, sp: Span, first: int)
    requires Tiled(rows, heads) && SpanFrom(rows, b, cutoff, pk, sp, first)
    ensures At(rows, b, sp.lo, pk) == Some(Image(rows[first]))
  {
    assert InRange(rows[first], heads);
    AtIs(rows, first, b, sp.lo, pk);
  }

  lemma {:induction false} ThinDoneAt(rows: seq<Version>, mid: seq<Version>, heads: map<Name, int>, b: Name, cutoff: int, pk: PK, sp: Span, first: int, f: int, s: int)
    requires Tiled(rows, heads) && Tiled(mid, heads) && cutoff < MAX_SEQ && KeySame(rows, mid, b, pk)
    requires SpanFrom(rows, b, cutoff, pk, sp, first) && SpanFrom(mid, b, cutoff, pk, sp, f)
    ensures At(Thin(mid, b, cutoff, pk, sp), b, s, pk) == if sp.lo <= s < sp.hi then Some(Image(rows[first])) else At(rows, b, s, pk)
  {
    FirstReads(rows, heads, b, cutoff, pk, sp, first);
    FirstReads(mid, heads, b, cutoff, pk, sp, f);
    ThinReads(mid, heads, b, cutoff, pk, sp, f, b, s, pk);
    assert At(mid, b, s, pk) == At(rows, b, s, pk) && At(mid, b, sp.lo, pk) == At(rows, b, sp.lo, pk);
  }

  /** Thinning a key that still reads as it did. */
  lemma {:induction false} ThinDone(rows: seq<Version>, mid: seq<Version>, heads: map<Name, int>, b: Name, cutoff: int, pk: PK, sp: Span)
    requires Tiled(rows, heads) && Tiled(mid, heads) && cutoff < MAX_SEQ && KeySame(rows, mid, b, pk)
    requires Spans(rows, b, cutoff, pk, sp) && Spans(mid, b, cutoff, pk, sp)
    ensures KeyThinned(rows, Thin(mid, b, cutoff, pk, sp), b, cutoff, pk)
  {
    var f :| 0 <= f < |mid| && DoomedFor(mid[f], b, cutoff, pk) && mid[f].from == sp.lo;
    forall sp', first, s | SpanFrom(rows, b, cutoff, pk, sp', first)
      ensures At(Thin(mid, b, cutoff, pk, sp), b, s, pk) == if sp'.lo <= s < sp'.hi then Some(Image(rows[first])) else At(rows, b, s, pk)
    {
      SpansOnce(rows, b, cutoff, pk, sp, sp');
      ThinDoneAt(rows, mid, heads, b, cutoff, pk, sp, first, f, s);
    }
  }

  /** A key with one candidate is thinned as it is. */
  lemma {:induction false} SingleDone(rows: seq<Version>, rows': seq<Version>, heads: map<Name, int>, b: Name, cutoff: int, pk: PK)
    requires Tiled(rows, heads) && cutoff < MAX_SEQ && OnlyOne(rows, b, cutoff, pk) && KeySame(rows, rows', b, pk)
    ensures KeyThinned(rows, rows', b, cutoff, pk)
  {
    forall sp, first, s | SpanFrom(rows, b, cutoff, pk, sp, first)
      ensures sp.lo <= s < sp.hi ==> At(rows, b, s, pk) == Some(Image(rows[first]))
    {
      var f :| 0 <= f < |rows| && DoomedFor(rows[f], b, cutoff, pk) && rows[f].from == sp.lo;
      var l :| 0 <= l < |rows| && DoomedFor(rows[l], b, cutoff, pk) && rows[l].to == sp.hi;
      assert f == l;
      if sp.lo <= s < sp.hi {
        AtIs(rows, f, b, s, pk);
        FirstReads(rows, heads, b, cutoff, pk, sp, first);
        FirstReads(rows, heads, b, cutoff, pk, sp, f);
      }
    }
  }

  /** Thinning one key leaves every other key's readings alone. */
  lemma {:induction false} ThinElsewhere(mid: seq<Version>, heads: map<Name, int>, b: Name, cutoff: int, pk: PK, sp: Span, k: PK)
    requires Tiled(mid, heads) && Spans(mid, b, cutoff, pk, sp) && cutoff < MAX_SEQ && k != pk
    ensures KeySame(mid, Thin(mid, b, cutoff, pk, sp), b, k)
  {
    ThinTiled(mid, heads, b, cutoff, pk, sp);
    forall s
      ensures At(Thin(mid, b, cutoff, pk, sp), b, s, k) == At(mid, b, s, k)
    {
      ThinReadsOutside(mid, heads, b, cutoff, pk, sp, b, s, k);
    }
  }

  lemma {:induction false} SameTransfers(rows: seq<Version>, mid: seq<Version>, after: seq<Version>, b: Name, cutoff: int, pk: PK)
    requires KeySame(mid, after, b, pk)
    ensures KeySame(rows, mid, b, pk) ==> KeySame(rows, after, b, pk)
    ensures KeyThinned(rows, mid, b, cutoff, pk) ==> KeyThinned(rows, after, b, cutoff, pk)
  {
    if KeyThinned(rows, mid, b, cutoff, pk) {
      forall sp, first, s | SpanFrom(rows, b, cutoff, pk, sp, first)
        ensures At(after, b, s, pk) == if sp.lo <= s < sp.hi then Some(Image(rows[first])) else At(rows, b, s, pk)
      {
        assert At(after, b, s, pk) == At(mid, b, s, pk);
      }
    }
  }

  /** How far the pruning of some keys has come: the ones left read as they did, the others are
      thinned. */
  ghost predicate Progress(rows: seq<Version>, mid: seq<Version>, b: Name, cutoff: int, several: set<PK>, rest: set<PK>) {
    forall k :: if k in several && k !in rest then KeyThinned(rows, mid, b, cutoff, k) else KeySame(rows, mid, b, k)
  }

  lemma {:induction false} ProgressNext(rows: seq<Version>, mid: seq<Version>, heads: map<Name, int>, b: Name, cutoff: int, several: set<PK>, rest: set<PK>, pk: PK, sp: Span)
    requires Tiled(rows, heads) && Tiled(mid, heads) && cutoff < MAX_SEQ && pk in rest && rest <= several
    requires Spans(rows, b, cutoff, pk, sp) && Spans(mid, b, cutoff, pk, sp) && Progress(rows, mid, b, cutoff, several, rest)
    ensures Progress(rows, Thin(mid, b, cutoff, pk, sp), b, cutoff, several, rest - {pk})
  {
    var r := Thin(mid, b, cutoff, pk, sp);
    forall k
      ensures if k in several && k !in rest - {pk} then KeyThinned(rows, r, b, cutoff, k) else KeySame(rows, r, b, k)
    {
      if k == pk {
        ThinDone(rows, mid, heads, b, cutoff, pk, sp);
      } else {
        ThinElsewhere(mid, heads, b, cutoff, pk, sp, k);
        SameTransfers(rows, mid, r, b, cutoff, k);
      }
    }
  }

  lemma {:induction false} ProgressDone(rows: seq<Version>, mid: seq<Version>, heads: map<Name, int>, b: Name, cutoff: int, several: set<PK>)
    requires Tiled(rows, heads) && cutoff < MAX_SEQ && Progress(rows, mid, b, cutoff, several, {})
    requires forall pk :: pk !in several ==> OnlyOne(rows, b, cutoff, pk)
    ensures forall pk :: KeyThinned(rows, mid, b, cutoff, pk)
  {
    forall pk
      ensures KeyThinned(rows, mid, b, cutoff, pk)
    {
      if pk !in several {
        SingleDone(rows, mid, heads, b, cutoff, pk);
      }
    }
  }

  // ----- Prune -----

  lemma {:induction false} SpansNext(rows: seq<Version>, j: int, b: Name, cutoff: int, pk: PK, sp: Option<Span>)
    requires 0 <= j < |rows|
    requires if sp.Some? then Spans(rows[..j], b, cutoff, pk, sp.value) else forall i :: 0 <= i < j ==> !DoomedFor(rows[i], b, cutoff, pk)
    ensures DoomedFor(rows[j], b, cutoff, pk) ==>
      Spans(rows[..j + 1], b, cutoff, pk, if sp.Some? then Span(Min(sp.value.lo, rows[j].from), Max(sp.value.hi, rows[j].to)) else Span(rows[j].from, rows[j].to))
    ensures !DoomedFor(rows[j], b, cutoff, pk) && sp.Some? ==> Spans(rows[..j + 1], b, cutoff, pk, sp.value)
  {
    var was, now := rows[..j], rows[..j + 1];
    assert now[j] == rows[j];
    if sp.Some? {
      var f :| 0 <= f < j && DoomedFor(was[f], b, cutoff, pk) && was[f].from == sp.value.lo;
      var l :| 0 <= l < j && DoomedFor(was[l], b, cutoff, pk) && was[l].to == sp.value.hi;
      assert now[f] == was[f] && now[l] == was[l];
      assert forall i :: 0 <= i < j ==> now[i] == was[i];
    }
  }

  /** What the grouping query has found about a key after j rows. */
  ghost predicate GroupedAt(rows: seq<Version>, j: int, b: Name, cutoff: int, spans: map<PK, Span>, several: set<PK>, pk: PK)
    requires 0 <= j <= |rows|
  {
    && (pk in spans ==> Spans(rows[..j], b, cutoff, pk, spans[pk]))
    && (pk !in spans ==> forall i :: 0 <= i < j ==> !DoomedFor(rows[i], b, cutoff, pk))
    && (pk !in several ==> OnlyOne(rows[..j], b, cutoff, pk))
    && (pk in several ==> pk in spans)
  }

  function Grown(spans: map<PK, Span>, v: Version): map<PK, Span> {
    spans[v.pk := if v.pk in spans then Span(Min(spans[v.pk].lo, v.from), Max(spans[v.pk].hi, v.to)) else Span(v.from, v.to)]
  }

  lemma {:induction false} GroupNext(rows: seq<Version>, j: int, b: Name, cutoff: int, spans: map<PK, Span>, several: set<PK>, pk: PK)
    requires 0 <= j < |rows| && GroupedAt(rows, j, b, cutoff, spans, several, pk)
    ensures Doomed(rows[j], b, cutoff) ==>
      GroupedAt(rows, j + 1, b, cutoff, Grown(spans, rows[j]), if rows[j].pk in spans then several + {rows[j].pk} else several, pk)
    ensures !Doomed(rows[j], b, cutoff) ==> GroupedAt(rows, j + 1, b, cutoff, spans, several, pk)
  {
    SpansNext(rows, j, b, cutoff, pk, if pk in spans then Some(spans[pk]) else None);
    if pk !in several {
      OnlyOneNext(rows, j, b, cutoff, pk);
    }
  }

  lemma {:induction false} OnlyOneNext(rows: seq<Version>, j: int, b: Name, cutoff: int, pk: PK)
    requires 0 <= j < |rows| && OnlyOne(rows[..j], b, cutoff, pk)
    ensures (DoomedFor(rows[j], b, cutoff, pk) ==> forall i :: 0 <= i < j ==> !DoomedFor(rows[i], b, cutoff, pk))
      ==> OnlyOne(rows[..j + 1], b, cutoff, pk)
  {
    assert forall i :: 0 <= i < j ==> rows[..j + 1][i] == rows[..j][i];
    assert rows[..j + 1][j] == rows[j];
  }

  /** The UPDATE, on one row. */
  function Stretch(v: Version, b: Name, pk: PK, sp: Span): Version {
    if Committed(v, b, pk) && v.from == sp.lo then v.(to := sp.hi) else v
  }

  /** What the pruning of some keys guarantees. */
  ghost predicate Pruned(rows: seq<Version>, rows': seq<Version>, heads: map<Name, int>, b: Name, cutoff: int) {
    && Tiled(rows', heads) && Followed(rows')
    && SameAfter(rows, rows', b, cutoff)
    && SameCurrent(rows, rows', b, cutoff)
  }

  lemma {:induction false} PrunedNext(rows: seq<Version>, mid: seq<Version>, heads: map<Name, int>, b: Name, cutoff: int, pk: PK, sp: Span)
    requires Pruned(rows, mid, heads, b, cutoff) && Spans(mid, b, cutoff, pk, sp) && cutoff < MAX_SEQ
    ensures Pruned(rows, Thin(mid, b, cutoff, pk, sp), heads, b, cutoff)
  {
    var r := Thin(mid, b, cutoff, pk, sp);
    ThinTiled(mid, heads, b, cutoff, pk, sp);
    ThinFollowed(mid, heads, b, cutoff, pk, sp);
    ThinSameAfter(mid, heads, b, cutoff, pk, sp);
    ThinSameCurrent(mid, heads, b, cutoff, pk, sp);
    forall b', s, k | b' != b || s >= cutoff
      ensures At(r, b', s, k) == At(rows, b', s, k)
    {
      assert At(mid, b', s, k) == At(rows, b', s, k);
    }
  }

  /** Thinning one key leaves the spans of the keys still to thin, and of all others at
      most one candidate. */
  lemma {:induction false} ThinRest(rows: seq<Version>, heads: map<Name, int>, b: Name, cutoff: int, pk: PK, spans: map<PK, Span>, rest: set<PK>)
    requires Tiled(rows, heads) && cutoff < MAX_SEQ && pk in rest && rest <= spans.Keys
    requires forall k :: k in rest ==> Spans(rows, b, cutoff, k, spans[k])
    requires forall k :: k !in rest ==> OnlyOne(rows, b, cutoff, k)
    ensures var r := Thin(rows, b, cutoff, pk, spans[pk]);
      && (forall k :: k in rest - {pk} ==> Spans(r, b, cutoff, k, spans[k]))
      && (forall k :: k !in rest - {pk} ==> OnlyOne(r, b, cutoff, k))
  {
    forall k | k in rest - {pk}
      ensures Spans(Thin(rows, b, cutoff, pk, spans[pk]), b, cutoff, k, spans[k])
    {
      ThinOthers(rows, heads, b, cutoff, pk, spans[pk], k, spans[k]);
    }
    forall k | k !in rest - {pk}
      ensures OnlyOne(Thin(rows, b, cutoff, pk, spans[pk]), b, cutoff, k)
    {
      ThinOnlyOne(rows, heads, b, cutoff, pk, spans[pk], k);
    }
  }

  /** The version table of one tracked table. */
  class Sidecar {
    var rows: seq<Version>

    constructor (rows: seq<Version>)
      ensures this.rows == rows
    {
      this.rows := rows;
    }

    /** The grouping query: the span of each key's candidates, and the keys with more
        than one. */
    method Group(b: Name, cutoff: int) returns (spans: map<PK, Span>, several: set<PK>)
      ensures forall pk {:trigger GroupedAt(rows, |rows|, b, cutoff, spans, several, pk)} :: GroupedAt(rows, |rows|, b, cutoff, spans, several, pk)
    {
      spans, several := map[], {};
      var j := 0;
      while j < |rows|
        invariant 0 <= j <= |rows|
        invariant forall pk {:trigger GroupedAt(rows, j, b, cutoff, spans, several, pk)} :: GroupedAt(rows, j, b, cutoff, spans, several, pk)
      {
        var v := rows[j];
        ghost var spans0, several0 := spans, several;
        if v.session == 0 && v.branch == b && v.to != MAX_SEQ && v.to <= cutoff {
          if v.pk in spans {
            several := several + {v.pk};
            spans := spans[v.pk := Span(Min(spans[v.pk].lo, v.from), Max(spans[v.pk].hi, v.to))];
          } else {
            spans := spans[v.pk := Span(v.from, v.to)];
          }
        }
        j := j + 1;
        forall pk
          ensures GroupedAt(rows, j, b, cutoff, spans, several, pk)
        {
          assert GroupedAt(rows, j - 1, b, cutoff, spans0, several0, pk);
          GroupNext(rows, j - 1, b, cutoff, spans0, several0, pk);
        }
      }
    }

    /** UPDATE: the version that starts the span is stretched over it. */
    method ExtendFirst(b: Name, pk: PK, sp: Span)
      modifies this
      ensures |rows| == |old(rows)| && forall i :: 0 <= i < |rows| ==> rows[i] == Stretch(old(rows)[i], b, pk, sp)
    {
      var i := 0;
      while i < |rows|
        invariant 0 <= i <= |rows| == |old(rows)|
        invariant forall j :: 0 <= j < i ==> rows[j] == Stretch(old(rows)[j], b, pk, sp)
        invariant forall j :: i <= j < |rows| ==> rows[j] == old(rows)[j]
      {
        if rows[i].session == 0 && rows[i].branch == b && rows[i].pk == pk && rows[i].from == sp.lo {
          rows := rows[i := rows[i].(to := sp.hi)];
        }
        i := i + 1;
      }
    }

    /** DELETE: the candidates that start later go. Returns how many. */
    method Delete(b: Name, cutoff: int, pk: PK, sp: Span, ghost was: seq<Version>) returns (n: nat)
      requires |rows| == |was| && forall i :: 0 <= i < |rows| ==> rows[i] == Stretch(was[i], b, pk, sp)
      modifies this
      ensures rows == Thin(was, b, cutoff, pk, sp) && n == |was| - |rows|
    {
      var kept: seq<Version> := [];
      var i := 0;
      n := 0;
      while i < |rows|
        invariant 0 <= i <= |rows| && rows == old(rows)
        invariant kept == Thin(was[..i], b, cutoff, pk, sp) && n == i - |kept|
      {
        var v := rows[i];
        assert was[..i + 1][..i] == was[..i];
        if v.session == 0 && v.branch == b && v.pk == pk && v.from > sp.lo && v.to != MAX_SEQ && v.to <= cutoff {
          n := n + 1;
        } else {
          kept := kept + [v];
        }
        i := i + 1;
      }
      assert was[..i] == was;
      rows := kept;
    }

    /** Prune: every key with several candidates is thinned. The tiling and every
        reading at or after the cutoff stay, and so do all open and staged versions;
        before it each key reads as its oldest closed version over the span of all of
        them; afterwards no key has two versions closed by the cutoff. */
    method Prune(b: Name, cutoff: int, ghost heads: map<Name, int>) returns (removed: nat)
      requires Tiled(rows, heads) && Followed(rows) && cutoff < MAX_SEQ
      modifies this
      ensures Pruned(old(rows), rows, heads, b, cutoff)
      ensures forall pk :: OnlyOne(rows, b, cutoff, pk)
      ensures forall pk :: KeyThinned(old(rows), rows, b, cutoff, pk)
      ensures removed == |old(rows)| - |rows|
    {
      var spans, several := Group(b, cutoff);
      forall pk
        ensures pk in spans ==> Spans(rows, b, cutoff, pk, spans[pk])
        ensures pk !in several ==> OnlyOne(rows, b, cutoff, pk)
        ensures pk in several ==> pk in spans
      {
        assert GroupedAt(rows, |rows|, b, cutoff, spans, several, pk);
        assert rows[..|rows|] == rows;
      }
      removed := 0;
      var rest := several;
      while rest != {}
        invariant rest <= several <= spans.Keys
        invariant Pruned(old(rows), rows, heads, b, cutoff)
        invariant forall pk :: pk in rest ==> Spans(rows, b, cutoff, pk, spans[pk])
        invariant forall pk :: pk !in rest ==> OnlyOne(rows, b, cutoff, pk)
        invariant Progress(old(rows), rows, b, cutoff, several, rest)
        invariant removed == |old(rows)| - |rows|
        decreases rest
      {
        var pk :| pk in rest;
        ghost var was := rows;
        ExtendFirst(b, pk, spans[pk]);
        var n := Delete(b, cutoff, pk, spans[pk], was);
        removed := removed + n;
        PrunedNext(old(rows), was, heads, b, cutoff, pk, spans[pk]);
        ThinRest(was, heads, b, cutoff, pk, spans, rest);
        ProgressNext(old(rows), was, heads, b, cutoff, several, rest, pk, spans[pk]);
        rest := rest - {pk};
      }
      ProgressDone(old(rows), rows, heads, b, cutoff, several);
    }

    /** The whole operation: the policy's cutoff first; without a policy, or with a cutoff
        before the first commit, nothing is pruned. */
    method PruneUnder(b: Name, headSeq: int, keepCommits: int, keepDays: int, lastOld: Option<int>, ghost heads: map<Name, int>)
      returns (removed: nat)
      requires Tiled(rows, heads) && Followed(rows)
      requires headSeq < MAX_SEQ && (lastOld.Some? ==> lastOld.value <= headSeq)
      modifies this
      ensures Pruned(old(rows), rows, heads, b, Cutoff(headSeq, keepCommits, keepDays, lastOld))
      ensures forall pk :: OnlyOne(rows, b, Cutoff(headSeq, keepCommits, keepDays, lastOld), pk)
      ensures forall pk :: KeyThinned(old(rows), rows, b, Cutoff(headSeq, keepCommits, keepDays, lastOld), pk)
      ensures removed == |old(rows)| - |rows|
    {
      var cutoff := 0;
      if keepCommits > 0 {
        cutoff := headSeq - keepCommits;
      }
      if keepDays > 0 && lastOld.Some? && lastOld.value > cutoff {
        cutoff := lastOld.value;
      }
      if (keepDays <= 0 && keepCommits <= 0) || cutoff <= 0 {
        NothingToPrune(rows, heads, b, cutoff);
        return 0;
      }
      removed := Prune(b, cutoff, heads);
    }
  }

  /** A cutoff before any version's end prunes nothing. */
  lemma {:induction false} NothingToPrune(rows: seq<Version>, heads: map<Name, int>, b: Name, cutoff: int)
    requires Tiled(rows, heads) && Followed(rows) && cutoff <= 0
    ensures Pruned(rows, rows, heads, b, cutoff) && forall pk :: OnlyOne(rows, b, cutoff, pk) && KeyThinned(rows, rows, b, cutoff, pk)
  {
    forall i | 0 <= i < |rows|
      ensures !Doomed(rows[i], b, cutoff)
    {
      assert InRange(rows[i], heads);
    }
  }

  // ----- what readers of a pruned store see -----

  /** The chain reads the branch at or after the cutoff, wherever it reads it. */
  ghost predicate From(chain: Chain, b: Name, cutoff: int) {
    forall i :: 0 <= i < |chain| && chain[i].branch == b ==> chain[i].upto >= cutoff
  }

  /** Every resolution whose segment of the pruned branch is at or after the cutoff is
      what it was. */
  lemma {:induction false} PrunedViews(rows: seq<Version>, rows': seq<Version>, heads: map<Name, int>, b: Name, cutoff: int, chain: Chain)
    requires Pruned(rows, rows', heads, b, cutoff)
    requires From(chain, b, cutoff)
    ensures View(rows', chain) == View(rows, chain)
  {
    forall pk
      ensures Live(rows', chain, pk) == Live(rows, chain, pk)
    {
      PrunedLive(rows, rows', b, cutoff, chain, pk);
    }
    SameView(rows, chain, rows', chain);
  }

  lemma {:induction false} PrunedLive(rows: seq<Version>, rows': seq<Version>, b: Name, cutoff: int, chain: Chain, pk: PK)
    requires SameAfter(rows, rows', b, cutoff)
    requires From(chain, b, cutoff)
    ensures Live(rows', chain, pk) == Live(rows, chain, pk)
    decreases |chain|
  {
    if chain != [] {
      assert At(rows', chain[0].branch, chain[0].upto, pk) == At(rows, chain[0].branch, chain[0].upto, pk);
      assert forall i :: 0 <= i < |chain[1..]| ==> chain[1..][i] == chain[i + 1];
      PrunedLive(rows, rows', b, cutoff, chain[1..], pk);
    }
  }

  // ----- masks -----

  /** Candidates start before the cutoff, so what a branch changed after it stays marked,
      and so does what any other branch changed. */
  lemma {:induction false} TouchedKept(rows: seq<Version>, rows': seq<Version>, heads: map<Name, int>, b: Name, cutoff: int, seg: Name, lo: int, hi: int, pk: PK, c: ColID)
    requires Tiled(rows, heads) && SameCurrent(rows, rows', b, cutoff)
    requires Touched(rows, seg, lo, hi, pk, c) && (seg != b || lo >= cutoff)
    ensures Touched(rows', seg, lo, hi, pk, c)
  {
    var i :| 0 <= i < |rows| && Committed(rows[i], seg, pk) && lo < rows[i].from <= hi && c in rows[i].changed;
    var v := rows[i];
    assert InRange(v, heads);
    assert v in rows && !Doomed(v, b, cutoff);
    var j :| 0 <= j < |rows'| && rows'[j] == v;
  }

  lemma {:induction false} EndsAtRoot(h: History, chain: Chain)
    requires WellFormed(h) && Recorded(h, chain)
    ensures Sees(chain, ROOT)
    decreases |chain|
  {
    RecordedTail(h, chain);
    if chain[0].branch != ROOT {
      EndsAtRoot(h, chain[1..]);
      var i :| 0 <= i < |chain[1..]| && chain[1..][i].branch == ROOT;
      assert chain[i + 1].branch == ROOT;
    }
  }

  lemma {:induction false} MaskKept(rows: seq<Version>, rows': seq<Version>, heads: map<Name, int>, cutoff: int, now: Chain, base: Chain, pk: PK, c: ColID)
    requires Tiled(rows, heads) && SameCurrent(rows, rows', ROOT, cutoff)
    requires From(now, ROOT, cutoff) && From(base, ROOT, cutoff) && Sees(now, ROOT) && Sees(base, ROOT)
    requires forall i, j :: 0 <= i < j < |base| ==> base[i].branch != base[j].branch
    requires MaskSince(rows, now, base, pk, c)
    ensures MaskSince(rows', now, base, pk, c)
  {
    UpperIs(base);
    if i :| 0 <= i < |now| && SegmentMask(rows, now[i], Upper(base), pk, c) {
      var seg, upper := now[i], Upper(base);
      if seg.branch in upper {
        TouchedKept(rows, rows', heads, ROOT, cutoff, seg.branch, Min(upper[seg.branch], seg.upto), Max(upper[seg.branch], seg.upto), pk, c);
      } else {
        TouchedKept(rows, rows', heads, ROOT, cutoff, seg.branch, 0, seg.upto, pk, c);
      }
      assert SegmentMask(rows', now[i], upper, pk, c);
    } else {
      var j :| 0 <= j < |base| && !Sees(now, base[j].branch) && Touched(rows, base[j].branch, 0, base[j].upto, pk, c);
      TouchedKept(rows, rows', heads, ROOT, cutoff, base[j].branch, 0, base[j].upto, pk, c);
    }
  }

  /** Masks stay sound between views at or after the cutoff: once the default branch is
      pruned, a cell on which two such views differ still has its bit in the mask between
      them. */
  lemma {:induction false} PrunedMasks(rows: seq<Version>, rows': seq<Version>, heads: map<Name, int>, h: History, cutoff: int, now: Chain, base: Chain, pk: PK, c: ColID)
    requires WellFormed(h) && Masked(rows, h) && Tiled(rows, heads) && Pruned(rows, rows', heads, ROOT, cutoff)
    requires Recorded(h, now) && Recorded(h, base) && From(now, ROOT, cutoff) && From(base, ROOT, cutoff)
    requires Cell(View(rows', now), pk, c) != Cell(View(rows', base), pk, c)
    ensures MaskSince(rows', now, base, pk, c)
  {
    PrunedViews(rows, rows', heads, ROOT, cutoff, now);
    PrunedViews(rows, rows', heads, ROOT, cutoff, base);
    MaskSound(rows, h, now, base, pk, c);
    EndsAtRoot(h, now);
    EndsAtRoot(h, base);
    DistinctBranches(h, base);
    MaskKept(rows, rows', heads, cutoff, now, base, pk, c);
  }

  // ----- policies -----

  /** The cutoff a policy asks for: the newest of the two bounds it sets. */
  function Cutoff(headSeq: int, keepCommits: int, keepDays: int, lastOld: Option<int>): int {
    var byCommits := if keepCommits > 0 then headSeq - keepCommits else 0;
    if keepDays > 0 && lastOld.Some? && lastOld.value > byCommits then lastOld.value else byCommits
  }

  /** The seq is kept by the policy: it is one of the last commits to keep, and not before the
      last seq older than the days to keep. */
  predicate KeptBy(headSeq: int, keepCommits: int, keepDays: int, lastOld: Option<int>, s: int) {
    && 0 <= s
    && (keepCommits > 0 ==> headSeq - keepCommits <= s)
    && (keepDays > 0 && lastOld.Some? ==> lastOld.value <= s)
  }

  /** The cutoff is where the kept seqs begin. */
  lemma {:induction false} CutoffIs(headSeq: int, keepCommits: int, keepDays: int, lastOld: Option<int>, s: int)
    ensures KeptBy(headSeq, keepCommits, keepDays, lastOld, s) <==> 0 <= s && Cutoff(headSeq, keepCommits, keepDays, lastOld) <= s
  {
  }

  /** Whatever the policy, every seq it keeps reads as before; with keep-commits alone those are
      the seqs from the head's less their number on. */
  lemma {:induction false} PolicyKeeps(rows: seq<Version>, rows': seq<Version>, heads: map<Name, int>, b: Name,
      headSeq: int, keepCommits: int, keepDays: int, lastOld: Option<int>, s: int, tail: Chain)
    requires Pruned(rows, rows', heads, b, Cutoff(headSeq, keepCommits, keepDays, lastOld))
    requires KeptBy(headSeq, keepCommits, keepDays, lastOld, s)
    requires forall i :: 0 <= i < |tail| ==> tail[i].branch != b
    ensures View(rows', [Segment(b, s)] + tail) == View(rows, [Segment(b, s)] + tail)
  {
    PrunedViews(rows, rows', heads, b, Cutoff(headSeq, keepCommits, keepDays, lastOld), [Segment(b, s)] + tail);
  }

  /** And of what it does not keep, at most one version of each key is left that was closed
      by the first kept seq. */
  lemma {:induction false} PolicyThins(rows: seq<Version>, b: Name, headSeq: int, keepCommits: int, keepDays: int, lastOld: Option<int>, first: int, pk: PK, i: int, j: int)
    requires OnlyOne(rows, b, Cutoff(headSeq, keepCommits, keepDays, lastOld), pk)
    requires KeptBy(headSeq, keepCommits, keepDays, lastOld, first) && !KeptBy(headSeq, keepCommits, keepDays, lastOld, first - 1)
    requires 0 <= i < |rows| && 0 <= j < |rows| && Committed(rows[i], b, pk) && Committed(rows[j], b, pk)
    requires rows[i].to <= first < MAX_SEQ && rows[j].to <= first
    ensures first > 0 ==> i == j
  {
    CutoffIs(headSeq, keepCommits, keepDays, lastOld, first);
    CutoffIs(headSeq, keepCommits, keepDays, lastOld, first - 1);
    assert first > 0 ==> DoomedFor(rows[i], b, first, pk) && DoomedFor(rows[j], b, first, pk);
  }
}
