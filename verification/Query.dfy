/** The resolution query (internal/adapter/mysql/mysql.go) and what it denotes. */
module Query {
  import opened Wrappers
  import opened Core
  import opened Versions
  import opened Staging

  /** A resolution request without paging. The key filter is a predicate on the key
      alone, since row identity never changes; session 0 means none. */
  datatype Spec = Spec(chain: Chain, session: nat, key: PK -> bool, filter: Option<Row -> bool>)

  /** One row of the UNION ALL: a stored version and its arm's priority. */
  datatype Tagged = Tagged(prio: int, v: Version)

  predicate Matches(v: Version, filter: Row -> bool) {
    v.op != Delete && filter(v.row)
  }

  // ----- the arms -----

  /** SELECT ... WHERE on one segment, for the keys to keep. */
  function Arm(rows: seq<Version>, seg: Segment, prio: int, keep: PK -> bool): seq<Tagged> {
    if rows == [] then []
    else
      var v := rows[|rows| - 1];
      Arm(rows[..|rows| - 1], seg, prio, keep)
      + (if Covers(v, seg.branch, seg.upto, v.pk) && keep(v.pk) then [Tagged(prio, v)] else [])
  }

  /** The arms of a chain, from a priority on, joined by UNION ALL. */
  function Arms(rows: seq<Version>, chain: Chain, prio: int, keep: PK -> bool): seq<Tagged>
    decreases |chain|
  {
    if chain == [] then [] else Arm(rows, chain[0], prio, keep) + Arms(rows, chain[1..], prio + 1, keep)
  }

  /** The session's own rows, at priority -1. */
  function SessionArm(rows: seq<Version>, sid: nat, keep: PK -> bool): seq<Tagged> {
    if rows == [] then []
    else
      var v := rows[|rows| - 1];
      SessionArm(rows[..|rows| - 1], sid, keep)
      + (if v.session == sid && keep(v.pk) then [Tagged(-1, v)] else [])
  }

  /** The candidate CTE: every key with a live row matching the filter in some arm. */
  function Candidates(rows: seq<Version>, spec: Spec): set<PK> {
    if spec.filter.None? then {}
    else
      var arms := Arms(rows, spec.chain, 0, spec.key);
      set i | 0 <= i < |arms| && Matches(arms[i].v, spec.filter.value) :: arms[i].v.pk
  }

  /** Everything the window function ranks. With a filter, the segment arms join the
      candidates; the session arm does not. */
  function Ranked(rows: seq<Version>, spec: Spec): seq<Tagged> {
    var candidates := Candidates(rows, spec);
    (if spec.session != 0 then SessionArm(rows, spec.session, spec.key) else [])
    + Arms(rows, spec.chain, 0, pk => spec.key(pk) && (spec.filter.Some? ==> pk in candidates))
  }

  /** ROW_NUMBER() = 1 within a key, by priority: ties may go either way. */
  ghost predicate First(ranked: seq<Tagged>, x: Tagged) {
    x in ranked && forall y :: y in ranked && y.v.pk == x.v.pk ==> x.prio <= y.prio
  }

  /** The outer WHERE: tombstones and non-matching rows go, after ranking. */
  function Outer(v: Version, filter: Option<Row -> bool>): Option<Row> {
    if v.op == Delete then None
    else if filter.Some? && !filter.value(v.row) then None
    else Some(v.row)
  }

  /** What the query may return for a key. */
  ghost predicate Returns(rows: seq<Version>, spec: Spec, pk: PK, r: Option<Row>) {
    || (exists x :: First(Ranked(rows, spec), x) && x.v.pk == pk && r == Outer(x.v, spec.filter))
    || ((forall x :: x in Ranked(rows, spec) ==> x.v.pk != pk) && r == None)
  }

  /** A table the query may return. */
  ghost predicate Answer(rows: seq<Version>, spec: Spec, t: Table) {
    forall pk :: Returns(rows, spec, pk, Lookup(t, pk))
  }

  // ----- what it means -----

  /** Resolve everything, then keep the asked-for keys and the matching rows. */
  function Wanted(spec: Spec, pk: PK, r: Option<Row>): Option<Row> {
    if r.Some? && spec.key(pk) && (spec.filter.Some? ==> spec.filter.value(r.value)) then r else None
  }

  function Resolution(rows: seq<Version>, spec: Spec, pk: PK): Option<Row> {
    if spec.session != 0 then SessionLive(rows, spec.chain, spec.session, pk) else Live(rows, spec.chain, pk)
  }

  // ----- the arms' members -----

  lemma {:induction false} ArmMembers(rows: seq<Version>, seg: Segment, prio: int, keep: PK -> bool, x: Tagged)
    ensures x in Arm(rows, seg, prio, keep) <==>
      x.prio == prio && x.v in rows && Covers(x.v, seg.branch, seg.upto, x.v.pk) && keep(x.v.pk)
  {
    if rows != [] {
      ArmMembers(rows[..|rows| - 1], seg, prio, keep, x);
      assert rows == rows[..|rows| - 1] + [rows[|rows| - 1]];
    }
  }

  lemma {:induction false} SessionArmMembers(rows: seq<Version>, sid: nat, keep: PK -> bool, x: Tagged)
    ensures x in SessionArm(rows, sid, keep) <==> x.prio == -1 && x.v in rows && x.v.session == sid && keep(x.v.pk)
  {
    if rows != [] {
      SessionArmMembers(rows[..|rows| - 1], sid, keep, x);
      assert rows == rows[..|rows| - 1] + [rows[|rows| - 1]];
    }
  }

  /** The row belongs to the arm of the segment its priority names. */
  ghost predicate InArm(rows: seq<Version>, chain: Chain, prio: int, keep: PK -> bool, x: Tagged) {
    && 0 <= x.prio - prio < |chain|
    && x.v in rows
    && Covers(x.v, chain[x.prio - prio].branch, chain[x.prio - prio].upto, x.v.pk)
    && keep(x.v.pk)
  }

  lemma {:induction false} InArmCons(rows: seq<Version>, chain: Chain, prio: int, keep: PK -> bool, x: Tagged)
    requires chain != []
    ensures InArm(rows, chain, prio, keep, x) <==>
      || (x.prio == prio && x.v in rows && Covers(x.v, chain[0].branch, chain[0].upto, x.v.pk) && keep(x.v.pk))
      || InArm(rows, chain[1..], prio + 1, keep, x)
  {
    var p := x.prio - prio;
    assert 0 < p < |chain| ==> chain[1..][p - 1] == chain[p];
  }

  lemma {:induction false} ArmsMembers(rows: seq<Version>, chain: Chain, prio: int, keep: PK -> bool, x: Tagged)
    ensures x in Arms(rows, chain, prio, keep) <==> InArm(rows, chain, prio, keep, x)
    decreases |chain|
  {
    if chain != [] {
      ArmMembers(rows, chain[0], prio, keep, x);
      ArmsMembers(rows, chain[1..], prio + 1, keep, x);
      InArmCons(rows, chain, prio, keep, x);
    }
  }

  // ----- the first row is the resolution -----

  /** The row a key's live segment holds, at that segment's priority. */
  lemma {:induction false} LiveRow(rows: seq<Version>, chain: Chain, prio: int, pk: PK) returns (x: Option<Tagged>)
    ensures x.None? ==> Live(rows, chain, pk) == None
    ensures x.None? ==> forall p, v :: 0 <= p < |chain| && v in rows ==> !Covers(v, chain[p].branch, chain[p].upto, pk)
    ensures x.Some? ==>
      && x.value.v.pk == pk && InArm(rows, chain, prio, _ => true, x.value) && Live(rows, chain, pk) == Image(x.value.v)
      && forall p, v :: 0 <= p < x.value.prio - prio && v in rows ==> !Covers(v, chain[p].branch, chain[p].upto, pk)
    decreases |chain|
  {
    if chain == [] {
      x := None;
    } else {
      var i := FirstCover(rows, chain[0].branch, chain[0].upto, pk);
      if i >= 0 {
        x := Some(Tagged(prio, rows[i]));
      } else {
        FirstCoverIsFirst(rows, chain[0].branch, chain[0].upto, pk);
        var rest := LiveRow(rows, chain[1..], prio + 1, pk);
        forall p, v | 0 <= p < (if rest.Some? then rest.value.prio - prio else |chain|) && v in rows
          ensures !Covers(v, chain[p].branch, chain[p].upto, pk)
        {
          if p > 0 {
            assert chain[1..][p - 1] == chain[p];
          }
        }
        x := rest;
      }
    }
  }

  lemma {:induction false} CoverUnique(rows: seq<Version>, v: Version, w: Version, b: Name, s: int, pk: PK)
    requires Disjoint(rows) && v in rows && w in rows && Covers(v, b, s, pk) && Covers(w, b, s, pk)
    ensures v == w
  {
    var i :| 0 <= i < |rows| && rows[i] == v;
    var j :| 0 <= j < |rows| && rows[j] == w;
    assert i < j ==> !Overlap(rows[i], rows[j]);
    assert j < i ==> !Overlap(rows[j], rows[i]);
  }

  /** Among the segment arms, a first row for the key is the row of its live segment. */
  lemma {:induction false} FirstIsLive(rows: seq<Version>, chain: Chain, keep: PK -> bool, x: Tagged)
    requires Disjoint(rows) && InArm(rows, chain, 0, keep, x)
    requires forall y :: InArm(rows, chain, 0, keep, y) && y.v.pk == x.v.pk ==> x.prio <= y.prio
    ensures Live(rows, chain, x.v.pk) == Image(x.v)
  {
    var y := LiveRow(rows, chain, 0, x.v.pk);
    assert Covers(x.v, chain[x.prio].branch, chain[x.prio].upto, x.v.pk);
    assert InArm(rows, chain, 0, keep, y.value);
    CoverUnique(rows, x.v, y.value.v, chain[x.prio].branch, chain[x.prio].upto, x.v.pk);
  }

  // ----- the ranked rows -----

  /** Which keys the segment arms keep. */
  predicate Kept(rows: seq<Version>, spec: Spec, pk: PK) {
    spec.key(pk) && (spec.filter.Some? ==> pk in Candidates(rows, spec))
  }

  ghost predicate InSession(rows: seq<Version>, spec: Spec, x: Tagged) {
    spec.session != 0 && x.prio == -1 && x.v in rows && x.v.session == spec.session && spec.key(x.v.pk)
  }

  ghost predicate InSegments(rows: seq<Version>, spec: Spec, x: Tagged) {
    InArm(rows, spec.chain, 0, _ => true, x) && Kept(rows, spec, x.v.pk)
  }

  lemma {:induction false} RankedMembers(rows: seq<Version>, spec: Spec, x: Tagged)
    ensures x in Ranked(rows, spec) <==> InSession(rows, spec, x) || InSegments(rows, spec, x)
  {
    var candidates := Candidates(rows, spec);
    var keep := pk => spec.key(pk) && (spec.filter.Some? ==> pk in candidates);
    ArmsMembers(rows, spec.chain, 0, keep, x);
    SessionArmMembers(rows, spec.session, spec.key, x);
  }

  /** A key whose live row matches is a candidate. */
  lemma {:induction false} LiveIsCandidate(rows: seq<Version>, spec: Spec, pk: PK)
    requires spec.filter.Some? && spec.key(pk) && Live(rows, spec.chain, pk).Some? && spec.filter.value(Live(rows, spec.chain, pk).value)
    ensures pk in Candidates(rows, spec)
  {
    var y := LiveRow(rows, spec.chain, 0, pk);
    ArmsMembers(rows, spec.chain, 0, spec.key, y.value);
    var arms := Arms(rows, spec.chain, 0, spec.key);
    var i :| 0 <= i < |arms| && arms[i] == y.value;
    assert Matches(arms[i].v, spec.filter.value);
  }

  /** The staged row of the key, when the session has one. */
  ghost predicate StagedFor(rows: seq<Version>, spec: Spec, pk: PK) {
    spec.session != 0 && spec.key(pk) && FirstStaged(rows, spec.session, pk) >= 0
  }

  lemma {:induction false} StagedRow(rows: seq<Version>, spec: Spec, x: Tagged)
    requires StagedUnique(rows) && InSession(rows, spec, x)
    ensures StagedFor(rows, spec, x.v.pk) && x.v == rows[FirstStaged(rows, spec.session, x.v.pk)]
  {
    var i :| 0 <= i < |rows| && rows[i] == x.v;
    var f := FirstStaged(rows, spec.session, x.v.pk);
    FirstStagedIsFirst(rows, spec.session, x.v.pk);
    assert Staged(rows[i], spec.session, x.v.pk);
  }

  /** A first row decides the key as resolution does. */
  lemma {:induction false} FirstDecides(rows: seq<Version>, spec: Spec, x: Tagged)
    requires Disjoint(rows) && StagedUnique(rows) && First(Ranked(rows, spec), x)
    ensures Outer(x.v, spec.filter) == Wanted(spec, x.v.pk, Resolution(rows, spec, x.v.pk))
  {
    RankedMembers(rows, spec, x);
    if InSession(rows, spec, x) {
      StagedRow(rows, spec, x);
    } else {
      if StagedFor(rows, spec, x.v.pk) {
        var staged := Tagged(-1, rows[FirstStaged(rows, spec.session, x.v.pk)]);
        RankedMembers(rows, spec, staged);
      }
      forall y | InArm(rows, spec.chain, 0, _ => true, y) && y.v.pk == x.v.pk
        ensures x.prio <= y.prio
      {
        RankedMembers(rows, spec, y);
      }
      FirstIsLive(rows, spec.chain, _ => true, x);
    }
  }

  /** A key with no ranked row is one resolution leaves out. */
  lemma {:induction false} NoneDecides(rows: seq<Version>, spec: Spec, pk: PK)
    requires forall x :: x in Ranked(rows, spec) ==> x.v.pk != pk
    ensures Wanted(spec, pk, Resolution(rows, spec, pk)) == None
  {
    if spec.key(pk) {
      if StagedFor(rows, spec, pk) {
        var staged := Tagged(-1, rows[FirstStaged(rows, spec.session, pk)]);
        RankedMembers(rows, spec, staged);
      }
      var y := LiveRow(rows, spec.chain, 0, pk);
      if y.Some? {
        RankedMembers(rows, spec, y.value);
        assert y.value !in Ranked(rows, spec);
        assert !Kept(rows, spec, pk);
        if Live(rows, spec.chain, pk).Some? && spec.filter.value(Live(rows, spec.chain, pk).value) {
          LiveIsCandidate(rows, spec, pk);
        }
      }
    }
  }

  /** Some ranked row of a key comes first. */
  lemma {:induction false} SomeFirst(ranked: seq<Tagged>, x: Tagged) returns (y: Tagged)
    requires x in ranked && forall z :: z in ranked ==> -1 <= z.prio
    ensures First(ranked, y) && y.v.pk == x.v.pk
    decreases x.prio + 1
  {
    if z :| z in ranked && z.v.pk == x.v.pk && z.prio < x.prio {
      y := SomeFirst(ranked, z);
    } else {
      y := x;
    }
  }

  lemma {:induction false} QueryKey(rows: seq<Version>, spec: Spec, pk: PK, r: Option<Row>)
    requires Disjoint(rows) && StagedUnique(rows)
    ensures Returns(rows, spec, pk, r) <==> r == Wanted(spec, pk, Resolution(rows, spec, pk))
  {
    var ranked := Ranked(rows, spec);
    forall x | First(ranked, x) && x.v.pk == pk
      ensures Outer(x.v, spec.filter) == Wanted(spec, pk, Resolution(rows, spec, pk))
    {
      FirstDecides(rows, spec, x);
    }
    if x :| x in ranked && x.v.pk == pk {
      forall z | z in ranked
        ensures -1 <= z.prio
      {
        RankedMembers(rows, spec, z);
      }
      var y := SomeFirst(ranked, x);
    } else {
      NoneDecides(rows, spec, pk);
    }
  }

  /** The resolution query preserves meaning: on a tiled store with at most one staged
      row per session and key, a table is an answer of the query exactly when it holds,
      for every asked-for key, the resolved row if that row matches. The candidates,
      the pushed-down key filter and ties in the ranking change nothing. */
  lemma {:induction false} QueryDenotes(rows: seq<Version>, spec: Spec, t: Table)
    requires Disjoint(rows) && StagedUnique(rows)
    ensures Answer(rows, spec, t) <==> forall pk :: Lookup(t, pk) == Wanted(spec, pk, Resolution(rows, spec, pk))
  {
    forall pk
      ensures Returns(rows, spec, pk, Lookup(t, pk)) <==> Lookup(t, pk) == Wanted(spec, pk, Resolution(rows, spec, pk))
    {
      QueryKey(rows, spec, pk, Lookup(t, pk));
    }
  }
}
