/** The orders Go's sort.Slice is called with, and sorting by them: byte strings and keys
    as Go compares strings, columns by number, conflicts by key, kind and column. A list
    without ties has one ascending order. */
module Orders {
  import opened Core

  // ----- strict orders and ascending lists, for any element type -----

  ghost predicate StrictOrder<T(!new)>(less: (T, T) -> bool) {
    && (forall x {:trigger less(x, x)} :: !less(x, x))
    && (forall x, y, z {:trigger less(x, y), less(y, z)} :: less(x, y) && less(y, z) ==> less(x, z))
  }

  ghost predicate Comparable<T>(less: (T, T) -> bool, x: T, y: T) {
    x == y || less(x, y) || less(y, x)
  }

  ghost predicate Ascending<T>(less: (T, T) -> bool, xs: seq<T>) {
    forall i, j :: 0 <= i < j < |xs| ==> less(xs[i], xs[j])
  }

  /** xs is the elements of s, each once, in ascending order. */
  ghost predicate Lists<T(!new)>(less: (T, T) -> bool, xs: seq<T>, s: set<T>) {
    Ascending(less, xs) && forall x :: x in xs <==> x in s
  }

  lemma {:induction false} AscendingDistinct<T(!new)>(less: (T, T) -> bool, xs: seq<T>)
    requires StrictOrder(less) && Ascending(less, xs)
    ensures forall i, j :: 0 <= i < j < |xs| ==> xs[i] != xs[j]
  {
    forall i, j | 0 <= i < j < |xs|
      ensures xs[i] != xs[j]
    {
      assert !less(xs[i], xs[i]);
    }
  }

  lemma {:induction false} ListHeadsAgree<T(!new)>(less: (T, T) -> bool, xs: seq<T>, ys: seq<T>, s: set<T>)
    requires StrictOrder(less) && Lists(less, xs, s) && Lists(less, ys, s)
    requires xs != [] && ys != []
    ensures xs[0] == ys[0]
  {
    assert xs[0] in xs && ys[0] in ys;
    var i :| 0 <= i < |ys| && ys[i] == xs[0];
    var j :| 0 <= j < |xs| && xs[j] == ys[0];
    assert forall k :: 0 < k < |ys| ==> less(ys[0], ys[k]);
    assert forall k :: 0 < k < |xs| ==> less(xs[0], xs[k]);
    assert !(less(xs[0], ys[0]) && less(ys[0], xs[0])) by {
      assert !less(xs[0], xs[0]);
    }
  }

  lemma {:induction false} ListTail<T(!new)>(less: (T, T) -> bool, xs: seq<T>, s: set<T>)
    requires StrictOrder(less) && Lists(less, xs, s) && xs != []
    ensures Lists(less, xs[1..], s - {xs[0]})
  {
    AscendingDistinct(less, xs);
    assert xs == [xs[0]] + xs[1..];
  }

  /** The ascending list of a set is unique, so sorting has one possible result. */
  lemma {:induction false} ListUnique<T(!new)>(less: (T, T) -> bool, xs: seq<T>, ys: seq<T>, s: set<T>)
    requires StrictOrder(less) && Lists(less, xs, s) && Lists(less, ys, s)
    ensures xs == ys
    decreases |xs|
  {
    assert ys != [] ==> ys[0] in ys;
    assert xs != [] ==> xs[0] in xs;
    if xs != [] {
      ListHeadsAgree(less, xs, ys, s);
      ListTail(less, xs, s);
      ListTail(less, ys, s);
      ListUnique(less, xs[1..], ys[1..], s - {xs[0]});
      assert xs == [xs[0]] + xs[1..] && ys == [ys[0]] + ys[1..];
    }
  }

  // ----- insertion sort -----

  function InsertInto<T>(less: (T, T) -> bool, x: T, xs: seq<T>): seq<T>
  {
    if xs == [] then [x]
    else if less(x, xs[0]) then [x] + xs
    else [xs[0]] + InsertInto(less, x, xs[1..])
  }

  function SortBy<T>(less: (T, T) -> bool, xs: seq<T>): seq<T>
  {
    if xs == [] then [] else InsertInto(less, xs[0], SortBy(less, xs[1..]))
  }

  lemma {:induction false} InsertMembers<T>(less: (T, T) -> bool, x: T, xs: seq<T>)
    ensures forall y :: y in InsertInto(less, x, xs) <==> y == x || y in xs
  {
    if xs != [] {
      assert xs == [xs[0]] + xs[1..];
      if !less(x, xs[0]) {
        InsertMembers(less, x, xs[1..]);
      }
    }
  }

  lemma {:induction false} InsertAscending<T(!new)>(less: (T, T) -> bool, x: T, xs: seq<T>)
    requires StrictOrder(less) && Ascending(less, xs)
    requires x !in xs && forall y :: y in xs ==> Comparable(less, x, y)
    ensures Ascending(less, InsertInto(less, x, xs))
  {
    if xs != [] {
      assert xs[0] in xs;
      if less(x, xs[0]) {
        assert forall j :: 0 < j < |xs| ==> less(x, xs[j]);
      } else {
        assert forall y :: y in xs[1..] ==> y in xs;
        InsertAscending(less, x, xs[1..]);
        InsertMembers(less, x, xs[1..]);
        var t := InsertInto(less, x, xs[1..]);
        forall j | 0 <= j < |t|
          ensures less(xs[0], t[j])
        {
          assert t[j] in t;
          if t[j] != x {
            var n :| 0 <= n < |xs[1..]| && xs[1..][n] == t[j];
            assert xs[n + 1] == t[j];
          }
        }
      }
    }
  }

  /** Sorting keeps the elements and, when no two of them tie, puts them in
      strictly ascending order. */
  lemma {:induction false} SortMembers<T>(less: (T, T) -> bool, xs: seq<T>)
    ensures forall y :: y in SortBy(less, xs) <==> y in xs
  {
    if xs != [] {
      SortMembers(less, xs[1..]);
      InsertMembers(less, xs[0], SortBy(less, xs[1..]));
      assert xs == [xs[0]] + xs[1..];
    }
  }

  ghost predicate NoTies<T>(less: (T, T) -> bool, xs: seq<T>) {
    forall i, j :: 0 <= i < j < |xs| ==> xs[i] != xs[j] && Comparable(less, xs[i], xs[j])
  }

  lemma {:induction false} SortAscending<T(!new)>(less: (T, T) -> bool, xs: seq<T>)
    requires StrictOrder(less) && NoTies(less, xs)
    ensures Ascending(less, SortBy(less, xs))
  {
    if xs != [] {
      SortAscending(less, xs[1..]);
      SortMembers(less, xs[1..]);
      var rest := SortBy(less, xs[1..]);
      forall y | y in rest
        ensures y != xs[0] && Comparable(less, xs[0], y)
      {
        var n :| 0 <= n < |xs[1..]| && xs[1..][n] == y;
        assert xs[n + 1] == y;
      }
      InsertAscending(less, xs[0], rest);
    }
  }

  /** Two lists with the same elements and no ties sort to the same list. */
  lemma {:induction false} SortDetermined<T(!new)>(less: (T, T) -> bool, xs: seq<T>, ys: seq<T>)
    requires StrictOrder(less) && NoTies(less, xs) && NoTies(less, ys)
    requires forall x :: x in xs <==> x in ys
    ensures SortBy(less, xs) == SortBy(less, ys)
  {
    SortAscending(less, xs);
    SortAscending(less, ys);
    SortMembers(less, xs);
    SortMembers(less, ys);
    var s := set x | x in xs;
    ListUnique(less, SortBy(less, xs), SortBy(less, ys), s);
  }

  // ----- byte strings and keys, compared as Go compares strings -----

  predicate LexLess(a: Bytes, b: Bytes)
    decreases |a|
  {
    b != [] && (a == [] || a[0] < b[0] || (a[0] == b[0] && LexLess(a[1..], b[1..])))
  }

  predicate KeyLess(a: PK, b: PK) {
    LexLess(a.bytes, b.bytes)
  }

  predicate ColLess(a: ColID, b: ColID) {
    a < b
  }

  /** SortConflicts orders by key, then kind, then column. */
  predicate ConflictLess(a: Conflict, b: Conflict) {
    if a.pk != b.pk then KeyLess(a.pk, b.pk)
    else if a.kind != b.kind then KindRank(a.kind) < KindRank(b.kind)
    else a.col < b.col
  }

  lemma {:induction false} LexIrreflexive(a: Bytes)
    ensures !LexLess(a, a)
    decreases |a|
  {
    if a != [] {
      LexIrreflexive(a[1..]);
    }
  }

  lemma {:induction false} LexTransitive(a: Bytes, b: Bytes, c: Bytes)
    requires LexLess(a, b) && LexLess(b, c)
    ensures LexLess(a, c)
    decreases |a|
  {
    if a != [] && a[0] == b[0] && b[0] == c[0] {
      LexTransitive(a[1..], b[1..], c[1..]);
    }
  }

  lemma {:induction false} LexConnected(a: Bytes, b: Bytes)
    ensures a == b || LexLess(a, b) || LexLess(b, a)
    decreases |a|
  {
    if a != [] && b != [] && a[0] == b[0] {
      LexConnected(a[1..], b[1..]);
      if a[1..] == b[1..] {
        assert a == [a[0]] + a[1..] && b == [b[0]] + b[1..];
      }
    }
  }

  /** Keys are strictly and totally ordered. */
  lemma {:induction false} KeyOrder()
    ensures StrictOrder(KeyLess)
    ensures forall x, y :: Comparable(KeyLess, x, y)
  {
    forall x: PK ensures !KeyLess(x, x) {
      LexIrreflexive(x.bytes);
    }
    forall x: PK, y: PK, z: PK | KeyLess(x, y) && KeyLess(y, z) ensures KeyLess(x, z) {
      LexTransitive(x.bytes, y.bytes, z.bytes);
    }
    forall x: PK, y: PK ensures Comparable(KeyLess, x, y) {
      LexConnected(x.bytes, y.bytes);
    }
  }

  lemma {:induction false} ConflictOrder()
    ensures StrictOrder(ConflictLess)
  {
    KeyOrder();
    forall x: Conflict, y: Conflict, z: Conflict | ConflictLess(x, y) && ConflictLess(y, z)
      ensures ConflictLess(x, z)
    {
      if KeyLess(x.pk, y.pk) && KeyLess(y.pk, z.pk) {
        assert KeyLess(x.pk, z.pk);
        assert !KeyLess(x.pk, x.pk);
      }
    }
  }

  // ----- sets listed in ascending order -----

  lemma {:induction false} ListExists<T(!new)>(less: (T, T) -> bool, s: set<T>) returns (xs: seq<T>)
    requires StrictOrder(less) && forall x, y :: x in s && y in s ==> Comparable(less, x, y)
    ensures Lists(less, xs, s)
    decreases |s|
  {
    if s == {} {
      xs := [];
    } else {
      var x :| x in s;
      var rest := ListExists(less, s - {x});
      InsertAscending(less, x, rest);
      InsertMembers(less, x, rest);
      xs := InsertInto(less, x, rest);
    }
  }

  /** The keys of a set in ascending order: what ranging over a Go map and then
      calling sort.Slice yields. */
  ghost function SortedKeys(s: set<PK>): (ks: seq<PK>)
    ensures Lists(KeyLess, ks, s)
  {
    assert exists ks :: Lists(KeyLess, ks, s) by {
      KeyOrder();
      var ks := ListExists(KeyLess, s);
    }
    var ks :| Lists(KeyLess, ks, s);
    ks
  }

  ghost function SortedCols(s: set<ColID>): (cs: seq<ColID>)
    ensures Lists(ColLess, cs, s)
  {
    assert exists cs :: Lists(ColLess, cs, s) by {
      var cs := ListExists(ColLess, s);
    }
    var cs :| Lists(ColLess, cs, s);
    cs
  }

  /** Collecting map keys in arbitrary order and sorting them. */
  method SortKeys(s: set<PK>) returns (ks: seq<PK>)
    ensures ks == SortedKeys(s)
  {
    ks := [];
    var rest := s;
    KeyOrder();
    while rest != {}
      invariant rest <= s
      invariant Lists(KeyLess, ks, s - rest)
      decreases rest
    {
      var k :| k in rest;
      InsertAscending(KeyLess, k, ks);
      InsertMembers(KeyLess, k, ks);
      ks := InsertInto(KeyLess, k, ks);
      rest := rest - {k};
    }
    assert s - rest == s;
    ListUnique(KeyLess, ks, SortedKeys(s), s);
  }

  method SortCols(s: set<ColID>) returns (cs: seq<ColID>)
    ensures cs == SortedCols(s)
  {
    cs := [];
    var rest := s;
    while rest != {}
      invariant rest <= s
      invariant Lists(ColLess, cs, s - rest)
      decreases rest
    {
      var c :| c in rest;
      InsertAscending(ColLess, c, cs);
      InsertMembers(ColLess, c, cs);
      cs := InsertInto(ColLess, c, cs);
      rest := rest - {c};
    }
    assert s - rest == s;
    ListUnique(ColLess, cs, SortedCols(s), s);
  }
}
