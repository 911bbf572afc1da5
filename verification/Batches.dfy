/** The batches of versions the engine builds for a commit and for a merge result, key by
    key in ascending order: each is a batch that turns the current view into the table
    it is meant to be. */
module Batches {
  import opened Core
  import opened Orders
  import opened Versions
  import opened Writing
  import E = IntervalMachine
  import M = SnapshotMachine

  lemma {:induction false} ChangeBuilt(b: Name, n: int, id: nat, cols: set<ColID>, current: Table, cs: ChangeSet, keys: seq<PK>)
    requires forall k :: k in keys ==> k in cs
    requires forall i, j :: 0 <= i < j < |keys| ==> keys[i] != keys[j]
    ensures Built(E.ChangeVersions(b, n, id, cols, current, cs, keys), b, n, current, M.Apply(current, cs), cols, keys)
    decreases |keys|
  {
    if keys != [] {
      var last := |keys| - 1;
      var k, init := keys[last], keys[..last];
      ChangeBuilt(b, n, id, cols, current, cs, init);
      BuiltSnoc(E.ChangeVersions(b, n, id, cols, current, cs, init),
        E.ChangeVersion(b, n, id, cols, k, Lookup(current, k), cs[k]), b, n, current, M.Apply(current, cs), cols, init, k);
      assert init + [k] == keys;
    }
  }

  /** A commit's versions turn the current view into the model's next table. */
  lemma {:induction false} ChangeWrites(b: Name, n: int, id: nat, cols: set<ColID>, current: Table, cs: ChangeSet)
    ensures Plan(b, n, E.ChangeVersions(b, n, id, cols, current, cs, SortedKeys(cs.Keys)), current, M.Apply(current, cs), cols) in SoundPlans()
  {
    var keys := SortedKeys(cs.Keys);
    KeyOrder();
    AscendingDistinct(KeyLess, keys);
    ChangeBuilt(b, n, id, cols, current, cs, keys);
    BuiltWrites(E.ChangeVersions(b, n, id, cols, current, cs, keys), b, n, current, M.Apply(current, cs), cols, keys);
  }

  lemma {:induction false} ApplyTotal(t: Table, cs: ChangeSet, cols: set<ColID>)
    requires Total(t, cols) && TotalChanges(cs, cols)
    ensures Total(M.Apply(t, cs), cols)
  {
  }

  lemma {:induction false} UpsertBuilt(b: Name, n: int, id: nat, cols: set<ColID>, current: Table, t: Table, keys: seq<PK>)
    requires forall k :: k in keys ==> k in t
    requires forall i, j :: 0 <= i < j < |keys| ==> keys[i] != keys[j]
    ensures Built(E.UpsertVersions(b, n, id, cols, current, t, keys), b, n, current, t, cols, keys)
    decreases |keys|
  {
    if keys != [] {
      var last := |keys| - 1;
      var k, init := keys[last], keys[..last];
      UpsertBuilt(b, n, id, cols, current, t, init);
      BuiltSnoc(E.UpsertVersions(b, n, id, cols, current, t, init), E.UpsertVersion(b, n, id, cols, k, Lookup(current, k), t[k]),
        b, n, current, t, cols, init, k);
      assert init + [k] == keys;
    }
  }

  /** The keys of the list whose rows are gone from the table. */
  function Gone(t: Table, keys: seq<PK>): seq<PK>
    decreases |keys|
  {
    if keys == [] then []
    else Gone(t, keys[..|keys| - 1]) + (if keys[|keys| - 1] in t then [] else [keys[|keys| - 1]])
  }

  lemma {:induction false} GoneMembers(t: Table, keys: seq<PK>)
    ensures forall k :: k in Gone(t, keys) <==> k in keys && k !in t
    decreases |keys|
  {
    if keys != [] {
      GoneMembers(t, keys[..|keys| - 1]);
      assert keys == keys[..|keys| - 1] + [keys[|keys| - 1]];
    }
  }

  lemma {:induction false} TombstonesBuilt(b: Name, n: int, id: nat, cols: set<ColID>, current: Table, t: Table, upserts: seq<Version>, upkeys: seq<PK>, keys: seq<PK>)
    requires Built(upserts, b, n, current, t, cols, upkeys)
    requires forall k :: k in upkeys ==> k in t
    requires forall i, j :: 0 <= i < j < |keys| ==> keys[i] != keys[j]
    ensures Built(upserts + E.TombstoneVersions(b, n, id, cols, current, t, keys), b, n, current, t, cols, upkeys + Gone(t, keys))
    decreases |keys|
  {
    if keys == [] {
      assert upserts + [] == upserts && upkeys + [] == upkeys;
    } else {
      var last := |keys| - 1;
      var k, init := keys[last], keys[..last];
      TombstonesBuilt(b, n, id, cols, current, t, upserts, upkeys, init);
      var done, more := E.TombstoneVersions(b, n, id, cols, current, t, init), E.TombstoneVersion(b, n, id, cols, k, Lookup(current, k), k !in t);
      assert upserts + (done + more) == (upserts + done) + more;
      GoneMembers(t, init);
      if k in t {
        assert (upserts + done) + [] == upserts + done && Gone(t, init) + [] == Gone(t, init);
      } else {
        assert k !in init;
        BuiltSnoc(upserts + done, more, b, n, current, t, cols, upkeys + Gone(t, init), k);
        assert upkeys + (Gone(t, init) + [k]) == (upkeys + Gone(t, init)) + [k];
      }
    }
  }

  /** A merge result's versions turn the current view into the result, writing only
      the rows that differ. */
  lemma {:induction false} ResultWrites(b: Name, n: int, id: nat, cols: set<ColID>, current: Table, t: Table)
    ensures Plan(b, n, E.ResultVersions(b, n, id, cols, current, t), current, t, cols) in SoundPlans()
  {
    var upkeys, keys := SortedKeys(t.Keys), SortedKeys(current.Keys);
    KeyOrder();
    AscendingDistinct(KeyLess, upkeys);
    AscendingDistinct(KeyLess, keys);
    UpsertBuilt(b, n, id, cols, current, t, upkeys);
    TombstonesBuilt(b, n, id, cols, current, t, E.UpsertVersions(b, n, id, cols, current, t, upkeys), upkeys, keys);
    GoneMembers(t, keys);
    BuiltWrites(E.ResultVersions(b, n, id, cols, current, t), b, n, current, t, cols, upkeys + Gone(t, keys));
  }
}
