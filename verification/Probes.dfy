/** The probes of the property harness: what it reads off the engine after every step. */
module Probes {
  import opened Core
  import opened Versions
  import IntervalEngine
  import E = IntervalMachine

  /** A branch and a key. */
  type Slot = (Name, PK)

  function ChainDepth(e: E.State, b: Name): nat {
    if b in e.branches then |E.HeadChain(e, b)| else 0
  }

  // ----- versions without a commit -----

  /** The committed rows on a branch that name no commit, among the first n. */
  function ZeroHashOn(rows: seq<Version>, b: Name, n: nat): set<nat>
    requires n <= |rows|
  {
    set i: nat | i < n && rows[i].branch == b && rows[i].commit == 0 && rows[i].session == 0
  }

  lemma {:induction false} ZeroHashNext(rows: seq<Version>, b: Name, n: nat)
    requires n < |rows|
    ensures |ZeroHashOn(rows, b, n + 1)| ==
      |ZeroHashOn(rows, b, n)| + if rows[n].branch == b && rows[n].commit == 0 && rows[n].session == 0 then 1 else 0
  {
    var zero := rows[n].branch == b && rows[n].commit == 0 && rows[n].session == 0;
    assert ZeroHashOn(rows, b, n + 1) == ZeroHashOn(rows, b, n) + if zero then {n} else {};
  }

  method ZeroHashOnBranch(engine: IntervalEngine.Engine, b: Name) returns (n: nat)
    ensures n == |ZeroHashOn(engine.rows, b, |engine.rows|)|
  {
    var rows := engine.rows;
    n := 0;
    var i := 0;
    while i < |rows|
      invariant 0 <= i <= |rows| && n == |ZeroHashOn(rows, b, i)|
    {
      var zero := rows[i].branch == b && rows[i].commit == 0 && rows[i].session == 0;
      ZeroHashNext(rows, b, i);
      if zero {
        n := n + 1;
      }
      i := i + 1;
    }
  }

  // ----- open versions -----

  /** The open versions of a slot, among the first n rows. */
  function OpenAt(rows: seq<Version>, slot: Slot, n: nat): set<nat>
    requires n <= |rows|
  {
    set i: nat | i < n && OpenFor(rows[i], slot.0, slot.1)
  }

  function CountOf(counts: map<Slot, nat>, slot: Slot): nat {
    if slot in counts then counts[slot] else 0
  }

  ghost predicate Counts(counts: map<Slot, nat>, rows: seq<Version>, n: nat)
    requires n <= |rows|
  {
    forall slot :: CountOf(counts, slot) == |OpenAt(rows, slot, n)|
  }

  lemma {:induction false} OpenNext(rows: seq<Version>, slot: Slot, n: nat)
    requires n < |rows|
    ensures |OpenAt(rows, slot, n + 1)| == |OpenAt(rows, slot, n)| + if OpenFor(rows[n], slot.0, slot.1) then 1 else 0
  {
    assert OpenAt(rows, slot, n + 1) == OpenAt(rows, slot, n) + if OpenFor(rows[n], slot.0, slot.1) then {n} else {};
  }

  lemma {:induction false} CountNext(counts: map<Slot, nat>, counts': map<Slot, nat>, rows: seq<Version>, n: nat)
    requires n < |rows| && Counts(counts, rows, n)
    requires var slot := (rows[n].branch, rows[n].pk);
      counts' == if rows[n].session == 0 && rows[n].to == MAX_SEQ then counts[slot := CountOf(counts, slot) + 1] else counts
    ensures Counts(counts', rows, n + 1)
  {
    forall slot: Slot
      ensures CountOf(counts', slot) == |OpenAt(rows, slot, n + 1)|
    {
      OpenNext(rows, slot, n);
      assert CountOf(counts, slot) == |OpenAt(rows, slot, n)|;
    }
  }

  /** OpenVersionsPerKey: how many open versions each branch has of each key. */
  method OpenVersionsPerKey(engine: IntervalEngine.Engine) returns (counts: map<Slot, nat>)
    ensures forall slot :: CountOf(counts, slot) == |OpenAt(engine.rows, slot, |engine.rows|)|
    ensures forall slot :: slot in counts ==> counts[slot] > 0
  {
    var rows := engine.rows;
    counts := map[];
    var i := 0;
    while i < |rows|
      invariant 0 <= i <= |rows| && Counts(counts, rows, i)
      invariant forall slot :: slot in counts ==> counts[slot] > 0
    {
      ghost var before := counts;
      var v := rows[i];
      if v.session == 0 && v.to == MAX_SEQ {
        var slot := (v.branch, v.pk);
        counts := counts[slot := CountOf(counts, slot) + 1];
      }
      CountNext(before, counts, rows, i);
      i := i + 1;
    }
    assert Counts(counts, rows, |rows|);
  }

  // ----- intervals -----

  /** No two of the versions overlap. */
  ghost predicate Apart(vs: seq<Version>) {
    forall i, j {:trigger Overlap(vs[i], vs[j])} :: 0 <= i < j < |vs| ==> !Overlap(vs[i], vs[j])
  }

  predicate Ascends(vs: seq<Version>) {
    forall i, j :: 0 <= i < j < |vs| ==> vs[i].from <= vs[j].from
  }

  lemma {:induction false} ApartSnoc(vs: seq<Version>, v: Version)
    ensures Apart(vs + [v]) <==> Apart(vs) && forall w :: w in vs ==> !Overlap(w, v)
  {
    var r := vs + [v];
    if Apart(r) {
      forall i, j | 0 <= i < j < |vs|
        ensures !Overlap(vs[i], vs[j])
      {
        assert !Overlap(r[i], r[j]);
      }
      forall w | w in vs
        ensures !Overlap(w, v)
      {
        var i :| 0 <= i < |vs| && vs[i] == w;
        assert !Overlap(r[i], r[|vs|]);
      }
    }
  }

  lemma {:induction false} ApartInsert(vs: seq<Version>, p: nat, v: Version)
    requires p <= |vs|
    ensures Apart(vs[..p] + [v] + vs[p..]) <==> Apart(vs + [v])
  {
    var r := vs[..p] + [v] + vs[p..];
    ApartSnoc(vs, v);
    if Apart(r) {
      forall i, j | 0 <= i < j < |vs|
        ensures !Overlap(vs[i], vs[j])
      {
        var i', j' := if i < p then i else i + 1, if j < p then j else j + 1;
        assert !Overlap(r[i'], r[j']);
      }
      forall w | w in vs
        ensures !Overlap(w, v)
      {
        var i :| 0 <= i < |vs| && vs[i] == w;
        assert if i < p then !Overlap(r[i], r[p]) else !Overlap(r[p], r[i + 1]);
      }
    } else {
      var i, j :| 0 <= i < j < |r| && Overlap(r[i], r[j]);
      assert i != p && j != p ==> Overlap(vs[if i < p then i else i - 1], vs[if j < p then j else j - 1]);
      assert i == p ==> r[j] in vs;
      assert j == p ==> r[i] in vs;
    }
  }

  /** Where a version goes among sorted ones. */
  method Place(sorted: seq<Version>, v: Version) returns (p: nat)
    ensures p <= |sorted| && (p < |sorted| ==> v.from < sorted[p].from)
    ensures forall k :: 0 <= k < p ==> sorted[k].from <= v.from
  {
    p := 0;
    while p < |sorted| && sorted[p].from <= v.from
      invariant 0 <= p <= |sorted|
      invariant forall k :: 0 <= k < p ==> sorted[k].from <= v.from
    {
      p := p + 1;
    }
  }

  /** The same versions, ascending, and as far apart. */
  ghost predicate SortedFrom(vs: seq<Version>, sorted: seq<Version>) {
    multiset(sorted) == multiset(vs) && Ascends(sorted) && (Apart(sorted) <==> Apart(vs))
  }

  /** sort.Slice by the first seq. */
  method SortByStart(vs: seq<Version>) returns (sorted: seq<Version>)
    ensures SortedFrom(vs, sorted)
  {
    sorted := [];
    var i := 0;
    while i < |vs|
      invariant 0 <= i <= |vs| && SortedFrom(vs[..i], sorted)
    {
      assert vs[..i + 1] == vs[..i] + [vs[i]];
      sorted := PutByStart(vs[..i], sorted, vs[i]);
      i := i + 1;
    }
    assert vs[..i] == vs;
  }

  method PutByStart(ghost vs: seq<Version>, sorted: seq<Version>, v: Version) returns (sorted': seq<Version>)
    requires SortedFrom(vs, sorted)
    ensures SortedFrom(vs + [v], sorted')
  {
    var p := Place(sorted, v);
    SortNext(vs, v, sorted, p);
    return sorted[..p] + [v] + sorted[p..];
  }

  lemma {:induction false} InsertAscends(sorted: seq<Version>, p: nat, v: Version)
    requires Ascends(sorted) && p <= |sorted| && (p < |sorted| ==> v.from < sorted[p].from)
    requires forall k :: 0 <= k < p ==> sorted[k].from <= v.from
    ensures Ascends(sorted[..p] + [v] + sorted[p..])
  {
    var r := sorted[..p] + [v] + sorted[p..];
    forall i, j | 0 <= i < j < |r|
      ensures r[i].from <= r[j].from
    {
      assert i < p ==> r[i] == sorted[i];
      assert j > p ==> r[j] == sorted[j - 1] && sorted[p].from <= sorted[j - 1].from;
      assert i > p ==> r[i] == sorted[i - 1];
      assert j < p ==> r[j] == sorted[j];
    }
  }

  lemma {:induction false} InsertMultiset(sorted: seq<Version>, p: nat, v: Version)
    requires p <= |sorted|
    ensures multiset(sorted[..p] + [v] + sorted[p..]) == multiset(sorted) + multiset{v}
  {
    assert sorted == sorted[..p] + sorted[p..];
  }

  lemma {:induction false} SortNext(vs: seq<Version>, v: Version, sorted: seq<Version>, p: nat)
    requires SortedFrom(vs, sorted) && p <= |sorted| && (p < |sorted| ==> v.from < sorted[p].from)
    requires forall k :: 0 <= k < p ==> sorted[k].from <= v.from
    ensures SortedFrom(vs + [v], sorted[..p] + [v] + sorted[p..])
  {
    InsertAscends(sorted, p, v);
    InsertMultiset(sorted, p, v);
    ApartInsert(sorted, p, v);
    ApartSnoc(sorted, v);
    ApartSnoc(vs, v);
    forall w
      ensures w in sorted <==> w in vs
    {
      assert w in multiset(sorted) <==> w in multiset(vs);
    }
  }

  /** Non-empty intervals sorted by their start are apart when neighbours are. */
  lemma {:induction false} NeighboursApart(vs: seq<Version>)
    requires Ascends(vs) && forall i :: 0 <= i < |vs| ==> vs[i].from < vs[i].to
    ensures Apart(vs) <==> forall i :: 1 <= i < |vs| ==> vs[i - 1].to <= vs[i].from
  {
    if Apart(vs) {
      forall i | 1 <= i < |vs|
        ensures vs[i - 1].to <= vs[i].from
      {
        assert !Overlap(vs[i - 1], vs[i]);
      }
    } else {
      var i, j :| 0 <= i < j < |vs| && Overlap(vs[i], vs[j]);
      assert vs[i + 1].from <= vs[j].from;
    }
  }

  /** The committed versions of a slot, among the first n rows. */
  function Versioned(rows: seq<Version>, slot: Slot, n: nat): seq<Version>
    requires n <= |rows|
  {
    if n == 0 then []
    else
      var rest := Versioned(rows, slot, n - 1);
      if Committed(rows[n - 1], slot.0, slot.1) then rest + [rows[n - 1]] else rest
  }

  lemma {:induction false} VersionedMembers(rows: seq<Version>, slot: Slot, n: nat)
    requires n <= |rows|
    ensures forall v :: v in Versioned(rows, slot, n) <==> v in rows[..n] && Committed(v, slot.0, slot.1)
  {
    if n > 0 {
      VersionedMembers(rows, slot, n - 1);
      assert rows[..n] == rows[..n - 1] + [rows[n - 1]];
    }
  }

  ghost predicate SlotApart(rows: seq<Version>, slot: Slot, n: nat)
    requires n <= |rows|
  {
    Apart(Versioned(rows, slot, n))
  }

  /** A committed version overlaps none of its slot's. */
  ghost predicate Clear(rows: seq<Version>, v: Version) {
    forall w :: w in rows && Committed(w, v.branch, v.pk) ==> !Overlap(w, v)
  }

  /** The rows are disjoint when the versions of every slot are apart. */
  lemma {:induction false} DisjointIff(rows: seq<Version>, n: nat)
    requires n <= |rows|
    ensures Disjoint(rows[..n]) <==> forall slot :: SlotApart(rows, slot, n)
  {
    if n == 0 {
      assert forall slot :: SlotApart(rows, slot, 0);
    } else {
      var m := n - 1;
      DisjointIff(rows, m);
      DisjointSnoc(rows[..m], rows[m]);
      assert rows[..n] == rows[..m] + [rows[m]];
      SlotsApart(rows, m, n);
    }
  }

  lemma {:induction false} SlotNext(rows: seq<Version>, slot: Slot, m: nat, n: nat)
    requires m < |rows| && n == m + 1
    ensures SlotApart(rows, slot, n) <==>
      SlotApart(rows, slot, m) && (Committed(rows[m], slot.0, slot.1) ==> Clear(rows[..m], rows[m]))
  {
    VersionedMembers(rows, slot, m);
    ApartSnoc(Versioned(rows, slot, m), rows[m]);
  }

  lemma {:induction false} SlotsApart(rows: seq<Version>, m: nat, n: nat)
    requires m < |rows| && n == m + 1
    ensures (forall slot :: SlotApart(rows, slot, n)) <==>
      (forall slot :: SlotApart(rows, slot, m)) && (rows[m].session == 0 ==> Clear(rows[..m], rows[m]))
  {
    forall slot: Slot
      ensures SlotApart(rows, slot, n) <==>
        SlotApart(rows, slot, m) && (Committed(rows[m], slot.0, slot.1) ==> Clear(rows[..m], rows[m]))
    {
      SlotNext(rows, slot, m, n);
    }
    var own: Slot := (rows[m].branch, rows[m].pk);
    assert SlotApart(rows, own, n) ==> rows[m].session == 0 ==> Clear(rows[..m], rows[m]);
    if forall slot :: SlotApart(rows, slot, n) {
      forall slot: Slot
        ensures SlotApart(rows, slot, m)
      {
        assert SlotApart(rows, slot, n);
      }
    }
  }

  lemma {:induction false} DisjointSnoc(rows: seq<Version>, v: Version)
    ensures Disjoint(rows + [v]) <==> Disjoint(rows) && (v.session == 0 ==> Clear(rows, v))
  {
    var r := rows + [v];
    if Disjoint(r) {
      forall i, j | 0 <= i < j < |rows| && rows[i].session == 0 && Committed(rows[j], rows[i].branch, rows[i].pk)
        ensures !Overlap(rows[i], rows[j])
      {
        assert !Overlap(r[i], r[j]);
      }
      if v.session == 0 {
        forall w | w in rows && Committed(w, v.branch, v.pk)
          ensures !Overlap(w, v)
        {
          var i :| 0 <= i < |rows| && rows[i] == w;
          assert !Overlap(r[i], r[|rows|]);
        }
      }
    }
  }

  /** Every committed version is in force at some seq. */
  predicate Proper(rows: seq<Version>) {
    forall i :: 0 <= i < |rows| && rows[i].session == 0 ==> rows[i].from < rows[i].to
  }

  ghost predicate Grouped(groups: map<Slot, seq<Version>>, rows: seq<Version>, n: nat)
    requires n <= |rows|
  {
    forall slot {:trigger Versioned(rows, slot, n)} :: (if slot in groups then groups[slot] else []) == Versioned(rows, slot, n)
  }

  method GroupBySlot(rows: seq<Version>) returns (groups: map<Slot, seq<Version>>)
    ensures Grouped(groups, rows, |rows|)
  {
    groups := map[];
    var i := 0;
    while i < |rows|
      invariant 0 <= i <= |rows| && Grouped(groups, rows, i)
    {
      ghost var before := groups;
      var v := rows[i];
      if v.session == 0 {
        var slot := (v.branch, v.pk);
        groups := groups[slot := (if slot in groups then groups[slot] else []) + [v]];
      }
      forall slot: Slot
        ensures (if slot in groups then groups[slot] else []) == Versioned(rows, slot, i + 1)
      {
        assert (if slot in before then before[slot] else []) == Versioned(rows, slot, i);
      }
      i := i + 1;
    }
  }

  /** The versions of one slot, sorted and compared neighbour by neighbour. */
  method SlotSane(vs: seq<Version>) returns (sane: bool)
    ensures (forall v :: v in vs ==> v.from < v.to) ==> (sane <==> Apart(vs))
  {
    var sorted := SortByStart(vs);
    ghost var proper := forall v :: v in vs ==> v.from < v.to;
    if proper {
      forall i | 0 <= i < |sorted|
        ensures sorted[i].from < sorted[i].to
      {
        assert sorted[i] in multiset(sorted);
      }
      NeighboursApart(sorted);
    }
    var i := 1;
    while i < |sorted|
      invariant 1 <= i && (i <= |sorted| || |sorted| == 0)
      invariant forall k :: 1 <= k < i && k < |sorted| ==> sorted[k - 1].to <= sorted[k].from
    {
      if sorted[i].from < sorted[i - 1].to {
        return false;
      }
      i := i + 1;
    }
    return true;
  }

  /** IntervalsSane: no two versions of a key overlap on a branch. */
  method IntervalsSane(engine: IntervalEngine.Engine) returns (sane: bool)
    ensures Proper(engine.rows) ==> (sane <==> Disjoint(engine.rows))
  {
    var rows := engine.rows;
    var groups := GroupBySlot(rows);
    sane := true;
    var rest := groups.Keys;
    while rest != {}
      invariant rest <= groups.Keys
      invariant Proper(rows) ==> (sane <==> forall slot :: slot in groups.Keys - rest ==> Apart(groups[slot]))
      decreases rest
    {
      var slot :| slot in rest;
      var ok := SlotSane(groups[slot]);
      assert groups[slot] == Versioned(rows, slot, |rows|);
      VersionedMembers(rows, slot, |rows|);
      assert Proper(rows) ==> forall v :: v in groups[slot] ==> v.from < v.to;
      sane := sane && ok;
      rest := rest - {slot};
    }
    GroupsApart(groups, rows);
  }

  lemma {:induction false} GroupsApart(groups: map<Slot, seq<Version>>, rows: seq<Version>)
    requires Grouped(groups, rows, |rows|)
    ensures Disjoint(rows) <==> forall slot :: slot in groups ==> Apart(groups[slot])
  {
    DisjointIff(rows, |rows|);
    assert rows[..|rows|] == rows;
    forall slot: Slot
      ensures SlotApart(rows, slot, |rows|) <==> (slot in groups ==> Apart(groups[slot]))
    {
      assert (if slot in groups then groups[slot] else []) == Versioned(rows, slot, |rows|);
    }
  }
}
