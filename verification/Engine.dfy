/** The engine as the source writes it (internal/engine/engine.go). */
module IntervalEngine {
  import opened Wrappers
  import opened Core
  import opened Orders
  import opened Dag
  import opened Operations
  import opened Versions
  import opened Staging
  import opened Lineage
  import opened ThreeWay
  import opened MergeLoops
  import opened Scans
  import opened Changes
  import E = IntervalMachine

  /** One object whose methods update its fields and loop over its version list. Every
      method is proved to do to the object's state what the interval machine does. */
  class Engine {
    const schema: seq<ColID>
    var rows: seq<Version>
    var branches: map<Name, E.BranchRecord>
    var commits: map<nat, E.CommitMeta>
    var sessions: map<nat, E.SessionRecord>
    var nextID: nat
    var nextSess: nat

    function State(): E.State
      reads this
    {
      E.State(schema, rows, branches, commits, sessions, nextID, nextSess)
    }

    constructor (schema: seq<ColID>)
      ensures State() == E.Init(schema)
    {
      this.schema := schema;
      rows := [];
      branches := map[ROOT := E.BranchRecord(ROOT, 0, 1, "", 0, 0, [])];
      commits := map[1 := E.CommitMeta(1, [], ROOT, 0, [Segment(ROOT, 0)])];
      sessions := map[];
      nextID := 1;
      nextSess := 0;
    }

    // ----- resolution -----

    /** The session's own staged rows, at priority -1. */
    method ScanStaged(sid: nat) returns (best: map<PK, Version>, prio: map<PK, int>)
      ensures prio.Keys == best.Keys && forall pk :: pk in prio ==> prio[pk] == -1
      ensures forall pk {:trigger StagedWinner(rows, sid, |rows|, pk)} :: Holds(best, pk, StagedWinner(rows, sid, |rows|, pk))
    {
      best, prio := map[], map[];
      var j := 0;
      while j < |rows|
        invariant 0 <= j <= |rows|
        invariant prio.Keys == best.Keys && forall pk :: pk in prio ==> prio[pk] == -1
        invariant forall pk {:trigger StagedWinner(rows, sid, j, pk)} :: Holds(best, pk, StagedWinner(rows, sid, j, pk))
      {
        ghost var was := best;
        var v := rows[j];
        if v.session == sid && !(v.pk in prio && prio[v.pk] <= -1) {
          best, prio := best[v.pk := v], prio[v.pk := -1];
        }
        j := j + 1;
        assert Considered(was, best, v, v.session == sid);
        forall pk
          ensures Holds(best, pk, StagedWinner(rows, sid, j, pk))
        {
          assert Holds(was, pk, StagedWinner(rows, sid, j - 1, pk));
          StagedStep(rows, sid, j, was, best, pk);
        }
      }
    }

    /** One segment of the chain, at its priority. */
    method ScanSegment(chain: Chain, sid: nat, p: nat, best0: map<PK, Version>, prio0: map<PK, int>)
      returns (best: map<PK, Version>, prio: map<PK, int>)
      requires p < |chain|
      requires prio0.Keys == best0.Keys && forall pk :: pk in prio0 ==> prio0[pk] < p
      requires forall pk {:trigger Scanned(rows, chain, sid, p, 0, pk)} :: Holds(best0, pk, Scanned(rows, chain, sid, p, 0, pk))
      ensures prio.Keys == best.Keys && forall pk :: pk in prio ==> prio[pk] < p + 1
      ensures forall pk {:trigger Scanned(rows, chain, sid, p, |rows|, pk)} :: Holds(best, pk, Scanned(rows, chain, sid, p, |rows|, pk))
    {
      best, prio := best0, prio0;
      var seg := chain[p];
      var j := 0;
      while j < |rows|
        invariant 0 <= j <= |rows|
        invariant prio.Keys == best.Keys && forall pk :: pk in prio ==> prio[pk] <= p
        invariant forall pk {:trigger Scanned(rows, chain, sid, p, j, pk)} :: Holds(best, pk, Scanned(rows, chain, sid, p, j, pk))
      {
        ghost var was := best;
        var v := rows[j];
        if v.session == 0 && v.branch == seg.branch && v.from <= seg.upto < v.to && !(v.pk in prio && prio[v.pk] <= p) {
          best, prio := best[v.pk := v], prio[v.pk := p];
        }
        j := j + 1;
        assert Considered(was, best, v, Covers(v, seg.branch, seg.upto, v.pk));
        forall pk
          ensures Holds(best, pk, Scanned(rows, chain, sid, p, j, pk))
        {
          assert Holds(was, pk, Scanned(rows, chain, sid, p, j - 1, pk));
          ScanStep(rows, chain, sid, p, j, was, best, pk);
        }
      }
    }

    /** winners: the scan keeps, per key, the version of the lowest priority number, and
        the first one scanned among equals. */
    method Winners(chain: Chain, sid: nat) returns (best: map<PK, Version>)
      ensures forall pk {:trigger Winner(rows, chain, sid, pk)} :: Holds(best, pk, Winner(rows, chain, sid, pk))
    {
      best := map[];
      var prio: map<PK, int> := map[];
      if sid != 0 {
        best, prio := ScanStaged(sid);
      }
      forall pk
        ensures Holds(best, pk, Winner(rows, chain[..0], sid, pk))
      {
        StagedIsFirst(rows, chain, sid, pk);
      }
      var p := 0;
      while p < |chain|
        invariant 0 <= p <= |chain|
        invariant prio.Keys == best.Keys && forall pk :: pk in prio ==> prio[pk] < p
        invariant forall pk {:trigger Winner(rows, chain[..p], sid, pk)} :: Holds(best, pk, Winner(rows, chain[..p], sid, pk))
      {
        forall pk
          ensures Holds(best, pk, Scanned(rows, chain, sid, p, 0, pk))
        {
          assert Holds(best, pk, Winner(rows, chain[..p], sid, pk));
          ScannedEnds(rows, chain, sid, p, pk);
        }
        best, prio := ScanSegment(chain, sid, p, best, prio);
        p := p + 1;
        forall pk
          ensures Holds(best, pk, Winner(rows, chain[..p], sid, pk))
        {
          assert Holds(best, pk, Scanned(rows, chain, sid, p - 1, |rows|, pk));
          ScannedEnds(rows, chain, sid, p - 1, pk);
        }
      }
      assert chain[..p] == chain;
    }

    /** resolveChain: the winners, tombstones dropped, are the view. */
    method ResolveChain(chain: Chain, sid: nat) returns (t: Table)
      ensures t == if sid == 0 then View(rows, chain) else SessionView(rows, chain, sid)
    {
      var best := Winners(chain, sid);
      t := map[];
      var rest := best.Keys;
      while rest != {}
        invariant rest <= best.Keys
        invariant forall pk :: Lookup(t, pk) == if pk in best && pk !in rest then Image(best[pk]) else None
        decreases rest
      {
        var pk :| pk in rest;
        if best[pk].op != Delete {
          t := t[pk := best[pk].row];
        }
        rest := rest - {pk};
      }
      forall pk
        ensures Lookup(t, pk) == (if Winner(rows, chain, sid, pk).Some? then Image(Winner(rows, chain, sid, pk).value) else None)
      {
        assert Holds(best, pk, Winner(rows, chain, sid, pk));
      }
      ResolvedIs(rows, chain, sid, t);
    }

    method ResolveHead(b: Name) returns (t: Table)
      requires b in branches
      ensures t == View(rows, E.HeadChain(State(), b))
    {
      t := ResolveChain(E.HeadChain(State(), b), 0);
    }

    method Resolve(b: Name) returns (t: Option<Table>)
      ensures t == E.Resolve(State(), b)
    {
      if b !in branches {
        return None;
      }
      var view := ResolveHead(b);
      return Some(view);
    }

    method StateAtCommit(id: nat) returns (t: Table)
      ensures t == E.StateAtCommit(State(), id)
    {
      if id !in commits {
        return map[];
      }
      t := ResolveChain(commits[id].chain, 0);
    }

    /** Pass 1 of a filtered read: every key with a matching row in force in any segment. */
    method CandidateKeys(chain: Chain, pred: Row -> bool) returns (keys: set<PK>)
      ensures forall p, j :: 0 <= p < |chain| && 0 <= j < |rows| && Hit(rows[j], chain[p], pred) ==> rows[j].pk in keys
    {
      keys := {};
      var p := 0;
      while p < |chain|
        invariant 0 <= p <= |chain|
        invariant forall q, j :: 0 <= q < p && 0 <= j < |rows| && Hit(rows[j], chain[q], pred) ==> rows[j].pk in keys
      {
        var j := 0;
        while j < |rows|
          invariant 0 <= j <= |rows|
          invariant forall q, k :: 0 <= q < p && 0 <= k < |rows| && Hit(rows[k], chain[q], pred) ==> rows[k].pk in keys
          invariant forall k :: 0 <= k < j && Hit(rows[k], chain[p], pred) ==> rows[k].pk in keys
        {
          var v := rows[j];
          if v.session == 0 && v.branch == chain[p].branch && v.from <= chain[p].upto < v.to && v.op != Delete && pred(v.row) {
            keys := keys + {v.pk};
          }
          j := j + 1;
        }
        p := p + 1;
      }
    }

    /** ResolveFiltered: resolve exactly the candidates, then filter the winners. */
    method ResolveFiltered(b: Name, pred: Row -> bool) returns (t: Option<Table>)
      ensures t == if b in branches then Some(Filtered(E.Resolve(State(), b).value, pred)) else None
    {
      if b !in branches {
        return None;
      }
      var chain := E.HeadChain(State(), b);
      var candidates := CandidateKeys(chain, pred);
      var best := Winners(chain, 0);
      var out: Table := map[];
      var rest := best.Keys;
      while rest != {}
        invariant rest <= best.Keys
        invariant forall pk :: Lookup(out, pk) == (
                    if pk in best && pk !in rest && pk in candidates && best[pk].op != Delete && pred(best[pk].row)
                    then Some(best[pk].row) else None)
        decreases rest
      {
        var pk :| pk in rest;
        if pk in candidates && best[pk].op != Delete && pred(best[pk].row) {
          out := out[pk := best[pk].row];
        }
        rest := rest - {pk};
      }
      forall pk
        ensures Lookup(out, pk) == Lookup(Filtered(View(rows, chain), pred), pk)
      {
        assert Holds(best, pk, Winner(rows, chain, 0, pk));
        WinnerHits(rows, chain, pk, pred);
      }
      SameLookups(out, Filtered(View(rows, chain), pred));
      return Some(out);
    }

    /** PlanUpdateWhere: the assignment applied to each matching row it changes; nothing
        on an unknown branch. */
    method PlanUpdateWhere(b: Name, pred: Row -> bool, assign: Row -> Row) returns (cs: ChangeSet)
      ensures cs == UpdateWhere(OrEmpty(E.Resolve(State(), b)), pred, assign)
    {
      var filtered := ResolveFiltered(b, pred);
      var matched := OrEmpty(filtered);
      cs := map[];
      var rest := matched.Keys;
      while rest != {}
        invariant rest <= matched.Keys
        invariant cs == map pk | pk in matched && pk !in rest && assign(matched[pk]) != matched[pk] :: Change(Update, assign(matched[pk]))
        decreases rest
      {
        var pk :| pk in rest;
        var next := assign(matched[pk]);
        if next != matched[pk] {
          cs := cs[pk := Change(Update, next)];
        }
        rest := rest - {pk};
      }
    }

    /** The keys whose versions start in the range. */
    method TouchedKeys(b: Name, lo: int, hi: int) returns (touched: set<PK>)
      ensures touched == WrittenKeys(rows, b, lo, hi)
    {
      touched := {};
      var j := 0;
      while j < |rows|
        invariant 0 <= j <= |rows|
        invariant touched == set i | 0 <= i < j && rows[i].session == 0 && rows[i].branch == b && lo < rows[i].from <= hi :: rows[i].pk
      {
        if rows[j].branch == b && rows[j].session == 0 && lo < rows[j].from <= hi {
          touched := touched + {rows[j].pk};
        }
        j := j + 1;
      }
    }

    /** Diff: only the keys the branch wrote in the range are looked at. */
    method Diff(b: Name, lo: int, hi: int) returns (d: Diff)
      ensures d == DiffAt(View(rows, E.ChainFor(State(), b, lo)), View(rows, E.ChainFor(State(), b, hi)),
        ColumnSet(schema), WrittenKeys(rows, b, lo, hi))
    {
      var from := ResolveChain(E.ChainFor(State(), b, lo), 0);
      var touched := TouchedKeys(b, lo, hi);
      var to := ResolveChain(E.ChainFor(State(), b, hi), 0);
      d := CompareAt(from, to, ColumnSet(schema), touched);
    }

    /** The store's Diff, whose entries keep the image before. */
    method DiffEntries(b: Name, lo: int, hi: int) returns (r: Result<Entries>)
      ensures b !in branches ==> r == Err(NoBranch)
      ensures b in branches ==>
        var top := E.UpTo(State(), b, hi);
        r == Ok(EntriesAt(View(rows, E.ChainFor(State(), b, lo)), View(rows, E.ChainFor(State(), b, top)),
          ColumnSet(schema), WrittenKeys(rows, b, lo, top)))
    {
      if b !in branches {
        return Err(NoBranch);
      }
      var top := E.UpTo(State(), b, hi);
      var touched := TouchedKeys(b, lo, top);
      var from := ResolveChain(E.ChainFor(State(), b, lo), 0);
      var to := ResolveChain(E.ChainFor(State(), b, top), 0);
      var entries := CompareEntries(from, to, ColumnSet(schema), touched);
      return Ok(entries);
    }

    // ----- writes -----

    /** closeOpen: the first open version of the key on the branch ends at the seq. */
    method CloseOpen(b: Name, pk: PK, at: int)
      modifies this`rows
      ensures rows == Close(old(rows), b, pk, at)
    {
      FirstOpenIsFirst(rows, b, pk);
      var i := 0;
      while i < |rows|
        invariant 0 <= i <= |rows| && rows == old(rows)
        invariant forall j :: 0 <= j < i ==> !OpenFor(rows[j], b, pk)
      {
        if rows[i].branch == b && rows[i].pk == pk && rows[i].session == 0 && rows[i].to == MAX_SEQ {
          rows := rows[i := rows[i].(to := at)];
          return;
        }
        i := i + 1;
      }
    }

    method Append(v: Version)
      modifies this`rows
      ensures rows == Write(old(rows), v)
    {
      CloseOpen(v.branch, v.pk, v.from);
      rows := rows + [v];
    }

    /** recordCommit, and the branch's head moved to the new commit. */
    method RecordCommit(b: Name, n: int, id: nat, parents: seq<nat>)
      requires b in branches && id == nextID
      modifies this`branches, this`commits
      ensures State() == E.RecordCommit(old(State()), rows, b, n, id, parents)
    {
      var chain := E.ChainFor(State(), b, n);
      branches := branches[b := branches[b].(headSeq := n, headCommit := id)];
      commits := commits[id := E.CommitMeta(id, parents, b, n, chain)];
    }

    /** One change: a delete of an absent row writes nothing. */
    method WriteChange(b: Name, n: int, id: nat, pk: PK, before: Option<Row>, ch: Change)
      modifies this`rows
      ensures rows == WriteAll(old(rows), E.ChangeVersion(b, n, id, ColumnSet(schema), pk, before, ch))
    {
      if ch.op == Delete {
        if before.None? {
          return;
        }
        Append(E.NewVersion(b, pk, n, Delete, id, MaskOf(before, None, ColumnSet(schema)), map[]));
      } else {
        var op := if before.None? then Insert else Update;
        Append(E.NewVersion(b, pk, n, op, id, MaskOf(before, Some(ch.row), ColumnSet(schema)), ch.row));
      }
      WriteAllOne(old(rows), E.ChangeVersion(b, n, id, ColumnSet(schema), pk, before, ch));
    }

    /** The changes of the listed keys, in turn. */
    method WriteChanges(b: Name, n: int, id: nat, current: Table, cs: ChangeSet, keys: seq<PK>)
      requires forall k :: k in keys ==> k in cs
      modifies this`rows
      ensures rows == WriteAll(old(rows), E.ChangeVersions(b, n, id, ColumnSet(schema), current, cs, keys))
    {
      var i := 0;
      while i < |keys|
        invariant 0 <= i <= |keys|
        invariant rows == WriteAll(old(rows), E.ChangeVersions(b, n, id, ColumnSet(schema), current, cs, keys[..i]))
      {
        var pk := keys[i];
        NextChange(old(rows), b, n, id, ColumnSet(schema), current, cs, keys, i);
        WriteChange(b, n, id, pk, Lookup(current, pk), cs[pk]);
        i := i + 1;
      }
      assert keys[..i] == keys;
    }

    method WriteAllChanges(b: Name, n: int, id: nat, current: Table, cs: ChangeSet)
      modifies this`rows
      ensures (old(rows), rows) in ChangeBatches(b, n, id, ColumnSet(schema), current, cs)
    {
      var keys := SortKeys(cs.Keys);
      WriteChanges(b, n, id, current, cs, keys);
    }

    /** The change set applied to what the branch reads, as versions of a new commit. */
    method WriteCommit(b: Name, cs: ChangeSet)
      requires b in branches
      modifies this`rows
      ensures rows == E.CommitRows(old(State()), b, cs)
    {
      ghost var e := State();
      var n, id := branches[b].headSeq + 1, nextID + 1;
      var current := ResolveHead(b);
      WriteAllChanges(b, n, id, current, cs);
      CommitRowsAre(e, b, n, id, current, cs, rows);
    }

    method Commit(b: Name, cs: ChangeSet) returns (r: Result<nat>)
      modifies this
      ensures (State(), r) == E.Commit(old(State()), b, cs)
    {
      if b !in branches {
        return Err(NoBranch);
      }
      ghost var e := State();
      var id, parent := nextID + 1, branches[b].headCommit;
      WriteCommit(b, cs);
      assert State() == e.(rows := rows);
      Advance(b, id, [parent]);
      CommittedIs(e, b, cs, rows, State());
      return Ok(id);
    }

    method CreateBranch(name: Name, from: Name) returns (r: Result<()>)
      modifies this`branches
      ensures (State(), r) == E.CreateBranch(old(State()), name, from)
    {
      if name in branches {
        return Err(BranchExists);
      }
      if from !in branches {
        return Err(NoParentBranch);
      }
      var p := branches[from];
      branches := branches[name := E.BranchRecord(name, 0, p.headCommit, from, p.headSeq, p.headCommit, E.Inherited(State(), from))];
      return Ok(());
    }

    // ----- merge base -----

    method MergeBase(a: nat, b: nat) returns (bases: set<nat>)
      ensures bases == MergeBases(E.Graph(State()), a, b)
    {
      var g := E.Graph(State());
      var da := Reach(g, a);
      var db := Reach(g, b);
      bases := FindMergeBases(g, a, b, da.Keys * db.Keys);
    }

    // ----- masks -----

    /** accumulateMask: per key, the columns of every version the branch wrote in (lo, hi]. */
    method AccumulateMask(b: Name, lo: int, hi: int) returns (m: Masks)
      ensures forall pk, c :: c in Bits(m, pk) <==> Touched(rows, b, lo, hi, pk, c)
    {
      m := map[];
      var j := 0;
      while j < |rows|
        invariant 0 <= j <= |rows|
        invariant forall pk, c :: c in Bits(m, pk) <==> Touched(rows[..j], b, lo, hi, pk, c)
      {
        ghost var was := m;
        var v := rows[j];
        if v.branch == b && v.session == 0 && lo < v.from <= hi {
          m := m[v.pk := Bits(m, v.pk) + v.changed];
        }
        assert rows[..j + 1] == rows[..j] + [v];
        forall pk, c
          ensures c in Bits(m, pk) <==> Touched(rows[..j + 1], b, lo, hi, pk, c)
        {
          TouchedSnoc(rows[..j], v, b, lo, hi, pk, c);
          assert c in Bits(was, pk) <==> Touched(rows[..j], b, lo, hi, pk, c);
        }
        j := j + 1;
      }
      assert rows[..j] == rows;
    }

    /** The range (lo, hi] of one branch, or-ed into the masks gathered so far. */
    method AddMask(m: Masks, b: Name, lo: int, hi: int) returns (m': Masks)
      ensures forall pk, c :: c in Bits(m', pk) <==> c in Bits(m, pk) || Touched(rows, b, lo, hi, pk, c)
    {
      m' := m;
      if hi <= lo {
        return;
      }
      var more := AccumulateMask(b, lo, hi);
      var rest := more.Keys;
      while rest != {}
        invariant rest <= more.Keys
        invariant forall pk :: Bits(m', pk) == Bits(m, pk) + (if pk in more && pk !in rest then more[pk] else {})
        decreases rest
      {
        var pk :| pk in rest;
        m' := m'[pk := Bits(m', pk) + more[pk]];
        rest := rest - {pk};
      }
      forall pk
        ensures Bits(m', pk) == Bits(m, pk) + Bits(more, pk)
      {
      }
    }

    method UpperOf(chain: Chain) returns (upper: map<Name, int>)
      ensures upper == Upper(chain)
    {
      upper := map[];
      var i := 0;
      while i < |chain|
        invariant 0 <= i <= |chain|
        invariant upper == Upper(chain[..i])
      {
        assert chain[..i + 1][..i] == chain[..i];
        upper := upper[chain[i].branch := chain[i].upto];
        i := i + 1;
      }
      assert chain[..i] == chain;
    }

    /** The segments of the current chain: the range between the two views, in either
        direction, or everything when the base cannot see the branch. */
    method NowMasks(now: Chain, upper: map<Name, int>) returns (m: Masks, seen: set<Name>)
      ensures forall pk, c :: c in Bits(m, pk) <==> NowMask(rows, now, upper, |now|, pk, c)
      ensures forall b :: b in seen <==> Sees(now, b)
    {
      m, seen := map[], {};
      var i := 0;
      while i < |now|
        invariant 0 <= i <= |now|
        invariant forall b :: b in seen <==> exists k :: 0 <= k < i && now[k].branch == b
        invariant forall pk, c :: c in Bits(m, pk) <==> NowMask(rows, now, upper, i, pk, c)
      {
        var seg := now[i];
        seen := seen + {seg.branch};
        var lo, hi := 0, seg.upto;
        if seg.branch in upper {
          lo, hi := Min(upper[seg.branch], seg.upto), Max(upper[seg.branch], seg.upto);
        }
        ghost var was := m;
        m := AddMask(m, seg.branch, lo, hi);
        forall pk, c
          ensures c in Bits(m, pk) <==> NowMask(rows, now, upper, i + 1, pk, c)
        {
          assert c in Bits(was, pk) <==> NowMask(rows, now, upper, i, pk, c);
          NowMaskNext(rows, now, upper, i, pk, c);
        }
        i := i + 1;
      }
    }

    /** The segments the base could see and the current chain cannot. */
    method BaseMasks(now: Chain, seen: set<Name>, base: Chain, m0: Masks) returns (m: Masks)
      requires forall b :: b in seen <==> Sees(now, b)
      ensures forall pk, c :: c in Bits(m, pk) <==> c in Bits(m0, pk) || BaseMask(rows, now, base, |base|, pk, c)
    {
      m := m0;
      var j := 0;
      while j < |base|
        invariant 0 <= j <= |base|
        invariant forall pk, c :: c in Bits(m, pk) <==> c in Bits(m0, pk) || BaseMask(rows, now, base, j, pk, c)
      {
        ghost var was := m;
        if base[j].branch !in seen {
          m := AddMask(m, base[j].branch, 0, base[j].upto);
        }
        forall pk, c
          ensures c in Bits(m, pk) <==> c in Bits(m0, pk) || BaseMask(rows, now, base, j + 1, pk, c)
        {
          assert c in Bits(was, pk) <==> c in Bits(m0, pk) || BaseMask(rows, now, base, j, pk, c);
          BaseMaskNext(rows, now, base, j, pk, c);
        }
        j := j + 1;
      }
    }

    /** maskSince: what may have changed on the branch since the commit. */
    method MaskSinceCommit(b: Name, base: nat) returns (m: Masks)
      requires b in branches
      ensures forall pk {:trigger E.MaskFor(State(), b, base, pk)} :: Bits(m, pk) == E.MaskFor(State(), b, base, pk)
    {
      if base !in commits {
        return map[];
      }
      var now, chain := E.HeadChain(State(), b), commits[base].chain;
      var upper := UpperOf(chain);
      var seen;
      m, seen := NowMasks(now, upper);
      ghost var was := m;
      m := BaseMasks(now, seen, chain, m);
      forall pk
        ensures Bits(m, pk) == E.MaskFor(State(), b, base, pk)
      {
        forall c
          ensures c in Bits(m, pk) <==> c in E.MaskFor(State(), b, base, pk)
        {
          assert c in Bits(was, pk) <==> NowMask(rows, now, upper, |now|, pk, c);
          MaskGathered(rows, now, chain, pk, c);
          if MaskSince(rows, now, chain, pk, c) {
            MaskIsWritten(rows, now, chain, pk, c);
          }
        }
      }
    }

    // ----- merge -----

    /** Each key in order: what it keeps joins the table, its conflicts the list. */
    method DecideNext(base: Table, ours: Table, theirs: Table, maskO: Masks, maskT: Masks, pk: PK, ghost ds: Decisions, ghost visited: seq<PK>,
        t: Table, conflicts: seq<Conflict>) returns (t': Table, conflicts': seq<Conflict>)
      requires Gathered(ds, visited, t, conflicts) && pk !in visited
      requires (pk, ds) in NarrowedBy(schema, base, ours, theirs, maskO, maskT)
      ensures Gathered(ds, visited + [pk], t', conflicts')
    {
      var d := DecideNarrowed(schema, pk, Lookup(base, pk), Lookup(ours, pk), Lookup(theirs, pk),
        Bits(maskO, pk) + Bits(maskT, pk));
      t', conflicts' := Gather(ds, visited, pk, d, t, conflicts);
    }

    method DecideKeys(base: Table, ours: Table, theirs: Table, maskO: Masks, maskT: Masks, keys: seq<PK>, ghost ds: Decisions)
      returns (t: Table, conflicts: seq<Conflict>)
      requires forall i, j :: 0 <= i < j < |keys| ==> keys[i] != keys[j]
      requires forall pk :: pk in keys ==> (pk, ds) in NarrowedBy(schema, base, ours, theirs, maskO, maskT)
      ensures Gathered(ds, keys, t, conflicts)
    {
      t, conflicts := map[], [];
      var i := 0;
      while i < |keys|
        invariant 0 <= i <= |keys|
        invariant Gathered(ds, keys[..i], t, conflicts)
      {
        var pk := keys[i];
        assert pk in keys && keys[..i + 1] == keys[..i] + [pk];
        t, conflicts := DecideNext(base, ours, theirs, maskO, maskT, pk, ds, keys[..i], t, conflicts);
        i := i + 1;
      }
      assert keys[..i] == keys;
    }

    /** mergeStates: the masks narrow which cells of a row both sides changed are
        compared, and nothing else. */
    method MergeTables(base: Table, ours: Table, theirs: Table, maskO: Masks, maskT: Masks, ghost mask: map<PK, set<ColID>>)
      returns (t: Table, conflicts: seq<Conflict>)
      requires forall pk :: pk in MergeKeys(base, ours, theirs) ==> MaskAt(mask, pk) == Bits(maskO, pk) + Bits(maskT, pk)
      ensures t == MergedTable(schema, base, ours, theirs, Narrowed(mask))
      ensures conflicts == MergeConflicts(schema, base, ours, theirs, Narrowed(mask))
    {
      var keys := SortKeys(MergeKeys(base, ours, theirs));
      KeyOrder();
      AscendingDistinct(KeyLess, keys);
      ghost var ds := DecideAll(schema, base, ours, theirs, Narrowed(mask));
      NarrowedDecisions(schema, base, ours, theirs, mask);
      t, conflicts := DecideKeys(base, ours, theirs, maskO, maskT, keys, ds);
      AllGathered(ds, keys, t, conflicts);
      conflicts := SortBy(ConflictLess, conflicts);
    }

    method MergeStates(into: Name, from: Name, base: nat) returns (t: Table, conflicts: seq<Conflict>)
      requires into in branches && from in branches
      ensures (t, conflicts) == E.MergeStates(State(), into, from, base)
    {
      var b := StateAtCommit(base);
      var a := ResolveHead(into);
      var th := ResolveHead(from);
      var mo := MaskSinceCommit(into, base);
      var mt := MaskSinceCommit(from, base);
      ghost var mask := E.MergeMask(State(), into, from, base, MergeKeys(b, a, th));
      t, conflicts := MergeTables(b, a, th, mo, mt, mask);
    }

    method WriteUpsert(b: Name, n: int, id: nat, pk: PK, before: Option<Row>, row: Row)
      modifies this`rows
      ensures rows == WriteAll(old(rows), E.UpsertVersion(b, n, id, ColumnSet(schema), pk, before, row))
    {
      if before == Some(row) {
        return;
      }
      var v := E.NewVersion(b, pk, n, if before.None? then Insert else Update, id, MaskOf(before, Some(row), ColumnSet(schema)), row);
      Append(v);
      WriteAllOne(old(rows), [v]);
    }

    /** Changed and new rows of the result. */
    method WriteUpserts(b: Name, n: int, id: nat, current: Table, result: Table, keys: seq<PK>)
      requires forall k :: k in keys ==> k in result
      modifies this`rows
      ensures rows == WriteAll(old(rows), E.UpsertVersions(b, n, id, ColumnSet(schema), current, result, keys))
    {
      var i := 0;
      while i < |keys|
        invariant 0 <= i <= |keys|
        invariant rows == WriteAll(old(rows), E.UpsertVersions(b, n, id, ColumnSet(schema), current, result, keys[..i]))
      {
        var pk := keys[i];
        NextUpsert(old(rows), b, n, id, ColumnSet(schema), current, result, keys, i);
        WriteUpsert(b, n, id, pk, Lookup(current, pk), result[pk]);
        i := i + 1;
      }
      assert keys[..i] == keys;
    }

    method WriteTombstone(b: Name, n: int, id: nat, pk: PK, before: Option<Row>, gone: bool)
      modifies this`rows
      ensures rows == WriteAll(old(rows), E.TombstoneVersion(b, n, id, ColumnSet(schema), pk, before, gone))
    {
      if gone {
        var v := E.NewVersion(b, pk, n, Delete, id, MaskOf(before, None, ColumnSet(schema)), map[]);
        Append(v);
        WriteAllOne(old(rows), [v]);
      }
    }

    /** A tombstone for every row that is gone. */
    method WriteTombstones(b: Name, n: int, id: nat, current: Table, result: Table, keys: seq<PK>)
      modifies this`rows
      ensures rows == WriteAll(old(rows), E.TombstoneVersions(b, n, id, ColumnSet(schema), current, result, keys))
    {
      var i := 0;
      while i < |keys|
        invariant 0 <= i <= |keys|
        invariant rows == WriteAll(old(rows), E.TombstoneVersions(b, n, id, ColumnSet(schema), current, result, keys[..i]))
      {
        var pk := keys[i];
        NextTombstone(old(rows), b, n, id, ColumnSet(schema), current, result, keys, i);
        WriteTombstone(b, n, id, pk, Lookup(current, pk), pk !in result);
        i := i + 1;
      }
      assert keys[..i] == keys;
    }

    method WriteResult(b: Name, n: int, id: nat, current: Table, result: Table)
      modifies this`rows
      ensures (old(rows), rows) in ResultBatches(b, n, id, ColumnSet(schema), current, result)
    {
      var kept := SortKeys(result.Keys);
      WriteUpserts(b, n, id, current, result, kept);
      var was := SortKeys(current.Keys);
      WriteTombstones(b, n, id, current, result, was);
      WriteAllAppend(old(rows), E.UpsertVersions(b, n, id, ColumnSet(schema), current, result, kept),
        E.TombstoneVersions(b, n, id, ColumnSet(schema), current, result, was));
    }

    /** The result compared with what the branch reads, as versions of a new commit. */
    method WriteMerged(b: Name, result: Table)
      requires b in branches
      modifies this`rows
      ensures (old(State()), rows) in MergedRows(b, result)
    {
      ghost var e := State();
      var n, id := branches[b].headSeq + 1, nextID + 1;
      var current := ResolveHead(b);
      WriteResult(b, n, id, current, result);
      ResultRowsAre(e, b, n, id, current, result, rows);
    }

    /** applyMergeResult: the merged table, written onto the branch as one commit. */
    method ApplyMergeResult(b: Name, result: Table, parents: seq<nat>) returns (id: nat)
      requires b in branches
      modifies this
      ensures State() == E.ApplyMergeResult(old(State()), b, result, parents) && id == old(nextID) + 1
    {
      ghost var e := State();
      id := nextID + 1;
      WriteMerged(b, result);
      ghost var written := State();
      Advance(b, id, parents);
      AppliedIs(e, written, b, result, parents, State());
    }

    /** The next commit id, and the commit it names. */
    method Advance(b: Name, id: nat, parents: seq<nat>)
      requires b in branches && id == nextID + 1
      modifies this`nextID, this`branches, this`commits
      ensures State() == E.RecordCommit(old(State()), rows, b, old(branches)[b].headSeq + 1, id, parents)
    {
      nextID := id;
      RecordCommit(b, branches[b].headSeq + 1, id, parents);
    }

    /** A clean merge is written, a conflicted one reported. */
    method Finish(b: Name, base: nat, t: Table, conflicts: seq<Conflict>, parents: seq<nat>, ghost before: E.State) returns (r: Result<MergeResult>)
      requires b in branches && before.nextID == nextID && (conflicts != [] ==> State() == before)
      modifies this
      ensures (State(), r) == E.Finish(before, old(State()), b, base, (t, conflicts), parents)
    {
      if conflicts != [] {
        return Ok(MergeResult(base, t, conflicts, false, 0));
      }
      var id := ApplyMergeResult(b, t, parents);
      return Ok(MergeResult(base, t, conflicts, true, id));
    }

    method Merge(from: Name, into: Name) returns (r: Result<MergeResult>)
      modifies this
      ensures (State(), r) == E.Merge(old(State()), from, into)
    {
      if from !in branches || into !in branches {
        return Err(NoBranch);
      }
      var ours, theirs := branches[into].headCommit, branches[from].headCommit;
      var bases := MergeBase(ours, theirs);
      if |bases| != 1 {
        return Err(AmbiguousBase(|bases|));
      }
      assert bases == {Only(bases)};
      var base :| base in bases;
      var t, conflicts := MergeStates(into, from, base);
      r := Finish(into, base, t, conflicts, [ours, theirs], State());
    }

    method UpdateFromParent(b: Name) returns (r: Result<MergeResult>)
      requires E.Closed(State())
      modifies this
      ensures (State(), r) == E.UpdateFromParent(old(State()), b)
    {
      if b !in branches {
        return Err(NoBranch);
      }
      var parent := branches[b].parent;
      if parent == "" {
        return Err(BranchHasNoParent);
      }
      var ours, theirs, base := branches[b].headCommit, branches[parent].headCommit, branches[b].forkCommit;
      if theirs == base {
        var view := ResolveHead(b);
        return Ok(MergeResult(base, view, [], true, 0));
      }
      var t, conflicts := MergeStates(b, parent, base);
      if conflicts == [] {
        branches := branches[b := branches[b].(
          forkSeq := branches[parent].headSeq, forkCommit := branches[parent].headCommit, chain := E.Inherited(State(), parent))];
      }
      r := Finish(b, base, t, conflicts, [ours, theirs], old(State()));
    }

    // ----- sessions -----

    method OpenSession(b: Name) returns (r: Result<nat>)
      modifies this`nextSess, this`sessions
      ensures (State(), r) == E.OpenSession(old(State()), b)
    {
      if b !in branches {
        return Err(NoBranch);
      }
      if b == ROOT {
        return Err(SessionsNotPermitted);
      }
      nextSess := nextSess + 1;
      sessions := sessions[nextSess := E.SessionRecord(nextSess, b, branches[b].headCommit, branches[b].headSeq, true)];
      return Ok(nextSess);
    }

    /** A session reads through the chain of its base commit. Session ids start at 1. */
    method SessionResolve(sid: nat) returns (t: Option<Table>)
      requires 0 !in sessions
      ensures t == E.SessionResolve(State(), sid)
    {
      if !(sid in sessions && sessions[sid].open) {
        return None;
      }
      if sessions[sid].base !in commits {
        return None;
      }
      var view := ResolveChain(commits[sessions[sid].base].chain, sid);
      return Some(view);
    }

    /** Upsert the session's staged row for a key, accumulating its mask. */
    method StageKey(sid: nat, b: Name, n: int, pk: PK, op: Op, row: Row, mask: set<ColID>)
      modifies this`rows
      ensures rows == StageRow(old(rows), sid, b, n, pk, op, row, mask)
    {
      FirstStagedIsFirst(rows, sid, pk);
      var i := 0;
      while i < |rows|
        invariant 0 <= i <= |rows| && rows == old(rows)
        invariant forall j :: 0 <= j < i ==> !Staged(rows[j], sid, pk)
      {
        if rows[i].session == sid && rows[i].pk == pk {
          rows := rows[i := rows[i].(op := op, row := row, changed := rows[i].changed + mask)];
          return;
        }
        i := i + 1;
      }
      rows := rows + [Version(b, pk, n, MAX_SEQ, op, 0, sid, mask, row)];
    }

    method StageOne(sid: nat, b: Name, n: int, pk: PK, before: Option<Row>, ch: Change)
      modifies this`rows
      ensures rows == E.StageChange(old(rows), sid, b, n, ColumnSet(schema), pk, before, ch)
    {
      if ch.op == Delete {
        if before.Some? {
          StageKey(sid, b, n, pk, Delete, map[], MaskOf(before, None, ColumnSet(schema)));
        }
      } else {
        StageKey(sid, b, n, pk, if before.None? then Insert else Update, ch.row, MaskOf(before, Some(ch.row), ColumnSet(schema)));
      }
    }

    /** Stage each key in turn; the local view follows what was staged. */
    method StageKeys(sid: nat, b: Name, n: int, view0: Table, cs: ChangeSet, keys: seq<PK>)
      requires forall k :: k in keys ==> k in cs
      requires forall i, j :: 0 <= i < j < |keys| ==> keys[i] != keys[j]
      modifies this`rows
      ensures rows == E.StageAll(old(rows), sid, b, n, ColumnSet(schema), view0, cs, keys)
    {
      var view := view0;
      var i := 0;
      while i < |keys|
        invariant 0 <= i <= |keys|
        invariant forall j :: i <= j < |keys| ==> Lookup(view, keys[j]) == Lookup(view0, keys[j])
        invariant rows == E.StageAll(old(rows), sid, b, n, ColumnSet(schema), view0, cs, keys[..i])
      {
        var pk := keys[i];
        var before, ch := Lookup(view, pk), cs[pk];
        assert keys[..i + 1][..i] == keys[..i];
        StageOne(sid, b, n, pk, before, ch);
        if ch.op == Delete {
          view := view - {pk};
        } else {
          view := view[pk := ch.row];
        }
        i := i + 1;
      }
      assert keys[..i] == keys;
    }

    method SessionWrite(sid: nat, cs: ChangeSet) returns (r: Result<()>)
      requires E.Closed(State()) && 0 !in sessions
      modifies this`rows
      ensures (State(), r) == E.SessionWrite(old(State()), sid, cs)
    {
      if !(sid in sessions && sessions[sid].open) {
        return Err(NoOpenSession);
      }
      StageSession(sid, sessions[sid].branch, cs);
      SessionWriteIs(old(State()), sid, cs, rows);
      return Ok(());
    }

    /** The change set staged over what the session sees. */
    method StageSession(sid: nat, b: Name, cs: ChangeSet)
      requires 0 !in sessions && b in branches
      modifies this`rows
      ensures rows == E.StageAll(old(rows), sid, b, branches[b].headSeq + 1, ColumnSet(schema),
        OrEmpty(E.SessionResolve(old(State()), sid)), cs, SortedKeys(cs.Keys))
    {
      var seen := SessionResolve(sid);
      var keys := SortKeys(cs.Keys);
      KeyOrder();
      AscendingDistinct(KeyLess, keys);
      StageKeys(sid, b, branches[b].headSeq + 1, OrEmpty(seen), cs, keys);
    }

    /** The open versions the staged rows replace, closed in key order. */
    method CloseKeys(b: Name, keys: seq<PK>, n: int)
      modifies this`rows
      ensures rows == CloseAll(old(rows), b, keys, n)
    {
      var i := 0;
      while i < |keys|
        invariant 0 <= i <= |keys|
        invariant rows == CloseAll(old(rows), b, keys[..i], n)
      {
        assert keys[..i + 1][..i] == keys[..i];
        CloseOpen(b, keys[i], n);
        i := i + 1;
      }
      assert keys[..i] == keys;
    }

    /** Every staged row becomes a version of the new commit. */
    method StampStaged(sid: nat, id: nat, n: int)
      modifies this`rows
      ensures rows == Stamp(old(rows), sid, id, n)
    {
      var i := 0;
      while i < |rows|
        invariant 0 <= i <= |rows| == |old(rows)|
        invariant forall j :: 0 <= j < i ==> rows[j] == StampOne(old(rows)[j], sid, id, n)
        invariant forall j :: i <= j < |rows| ==> rows[j] == old(rows)[j]
      {
        if rows[i].session == sid {
          rows := rows[i := rows[i].(session := 0, commit := id, from := n, to := MAX_SEQ)];
        }
        i := i + 1;
      }
    }

    /** The session's rows become versions of the commit, over what they replace. */
    method PublishRows(b: Name, sid: nat, id: nat, n: int)
      modifies this`rows
      ensures rows == Publish(old(rows), b, sid, id, n)
    {
      var keys := SortKeys(StagedKeys(rows, sid));
      CloseKeys(b, keys, n);
      StampStaged(sid, id, n);
    }

    method CommitSession(sid: nat) returns (r: Result<nat>)
      requires E.Closed(State())
      modifies this
      ensures (State(), r) == E.CommitSession(old(State()), sid)
    {
      if !(sid in sessions && sessions[sid].open) {
        return Err(NoOpenSession);
      }
      var s := sessions[sid];
      var head := branches[s.branch].headCommit;
      if head != s.base {
        return Err(BranchMoved);
      }
      var n, id := branches[s.branch].headSeq + 1, nextID + 1;
      nextID := id;
      PublishRows(s.branch, sid, id, n);
      RecordCommit(s.branch, n, id, [head]);
      sessions := sessions[sid := s.(open := false)];
      PublishedIs(old(State()), sid, State());
      return Ok(id);
    }

    method AbandonSession(sid: nat)
      modifies this`rows, this`sessions
      ensures State() == E.AbandonSession(old(State()), sid)
    {
      if sid !in sessions {
        return;
      }
      var kept: seq<Version> := [];
      var i := 0;
      while i < |rows|
        invariant 0 <= i <= |rows|
        invariant kept == Drop(rows[..i], sid)
      {
        assert rows[..i + 1][..i] == rows[..i];
        if rows[i].session != sid {
          kept := kept + [rows[i]];
        }
        i := i + 1;
      }
      assert rows[..i] == rows;
      rows := kept;
      sessions := sessions[sid := sessions[sid].(open := false)];
    }

    /** StagedOnBranch: how many staged rows sit on the branch. */
    method StagedOnBranch(b: Name) returns (n: nat)
      ensures n == |StagedOn(rows, b, |rows|)|
    {
      n := 0;
      var i := 0;
      while i < |rows|
        invariant 0 <= i <= |rows| && n == |StagedOn(rows, b, i)|
      {
        assert StagedOn(rows, b, i + 1) ==
               StagedOn(rows, b, i) + if rows[i].branch == b && rows[i].session != 0 then {i} else {};
        if rows[i].branch == b && rows[i].session != 0 {
          n := n + 1;
        }
        i := i + 1;
      }
    }
  }

  /** The staged rows on a branch, among the first n. */
  function StagedOn(rows: seq<Version>, b: Name, n: nat): set<nat>
    requires n <= |rows|
  {
    set i: nat | i < n && rows[i].branch == b && rows[i].session != 0
  }

  /** A key with a live, matching winner is hit in the winner's segment, and the
      winner is what the view holds. */
  lemma {:induction false} WinnerHits(rows: seq<Version>, chain: Chain, pk: PK, pred: Row -> bool)
    ensures var w := Winner(rows, chain, 0, pk);
      && Lookup(View(rows, chain), pk) == (if w.Some? then Image(w.value) else None)
      && (w.Some? && w.value.op != Delete && pred(w.value.row) ==>
           exists p, j :: 0 <= p < |chain| && 0 <= j < |rows| && Hit(rows[j], chain[p], pred) && rows[j].pk == pk)
  {
    WinnerIsLive(rows, chain, pk);
    ViewAt(rows, chain, pk);
    var w := ChainWinner(rows, chain, pk);
    if w.Some? {
      var p, j := WinnerSegment(rows, chain, pk);
      assert w.value.op != Delete && pred(w.value.row) ==> Hit(rows[j], chain[p], pred);
    }
  }

  lemma {:induction false} WinnerSegment(rows: seq<Version>, chain: Chain, pk: PK) returns (p: int, j: int)
    requires ChainWinner(rows, chain, pk).Some?
    ensures 0 <= p < |chain| && 0 <= j < |rows| && Covers(rows[j], chain[p].branch, chain[p].upto, pk)
    ensures ChainWinner(rows, chain, pk).value == rows[j]
    decreases |chain|
  {
    var n := |chain| - 1;
    if ChainWinner(rows, chain[..n], pk).Some? {
      p, j := WinnerSegment(rows, chain[..n], pk);
    } else {
      p, j := n, FirstCover(rows, chain[n].branch, chain[n].upto, pk);
    }
  }

  /** The stores before and after a merge result is written. */
  ghost function ResultBatches(b: Name, n: int, id: nat, cols: set<ColID>, current: Table, result: Table): iset<(seq<Version>, seq<Version>)> {
    iset x: (seq<Version>, seq<Version>) | x.1 == WriteAll(x.0, E.ResultVersions(b, n, id, cols, current, result))
  }

  /** The rows a merged table leaves once it is written onto the branch. */
  ghost function MergedRows(b: Name, result: Table): iset<(E.State, seq<Version>)> {
    iset x: (E.State, seq<Version>) | b in x.0.branches && x.1 == E.ResultRows(x.0, b, result)
  }

  lemma {:induction false} CommittedIs(e: E.State, b: Name, cs: ChangeSet, rows': seq<Version>, after: E.State)
    requires b in e.branches && rows' == E.CommitRows(e, b, cs)
    requires after == E.RecordCommit(e.(rows := rows'), rows', b, e.branches[b].headSeq + 1, e.nextID + 1, [e.branches[b].headCommit])
    ensures (after, Ok(e.nextID + 1)) == E.Commit(e, b, cs)
  {
  }

  lemma {:induction false} AppliedIs(e: E.State, written: E.State, b: Name, result: Table, parents: seq<nat>, after: E.State)
    requires b in e.branches && (e, written.rows) in MergedRows(b, result) && written == e.(rows := written.rows)
    requires after == E.RecordCommit(written, written.rows, b, written.branches[b].headSeq + 1, written.nextID + 1, parents)
    ensures after == E.ApplyMergeResult(e, b, result, parents)
  {
  }

  lemma {:induction false} PublishedIs(e: E.State, sid: nat, after: E.State)
    requires E.Closed(e) && E.IsOpen(e, sid) && e.branches[e.sessions[sid].branch].headCommit == e.sessions[sid].base
    requires var b, n, id := e.sessions[sid].branch, e.branches[e.sessions[sid].branch].headSeq + 1, e.nextID + 1;
      after == E.RecordCommit(e, Publish(e.rows, b, sid, id, n), b, n, id, [e.sessions[sid].base])
        .(sessions := e.sessions[sid := e.sessions[sid].(open := false)])
    ensures E.CommitSession(e, sid) == (after, Ok(e.nextID + 1))
  {
  }

  lemma {:induction false} SessionWriteIs(e: E.State, sid: nat, cs: ChangeSet, rows': seq<Version>)
    requires E.Closed(e) && E.IsOpen(e, sid)
    requires var b := e.sessions[sid].branch;
      rows' == E.StageAll(e.rows, sid, b, e.branches[b].headSeq + 1, ColumnSet(e.schema), OrEmpty(E.SessionResolve(e, sid)), cs, SortedKeys(cs.Keys))
    ensures E.SessionWrite(e, sid, cs) == (e.(rows := rows'), Ok(()))
  {
  }

  /** What writing a change set over a table makes of any rows. */
  ghost function ChangeBatches(b: Name, n: int, id: nat, cols: set<ColID>, current: Table, cs: ChangeSet): iset<(seq<Version>, seq<Version>)> {
    iset x: (seq<Version>, seq<Version>) | x.1 == WriteAll(x.0, E.ChangeVersions(b, n, id, cols, current, cs, SortedKeys(cs.Keys)))
  }

  lemma {:induction false} CommitRowsAre(e: E.State, b: Name, n: int, id: nat, current: Table, cs: ChangeSet, rows': seq<Version>)
    requires b in e.branches && n == e.branches[b].headSeq + 1 && id == e.nextID + 1
    requires current == View(e.rows, E.HeadChain(e, b))
    requires (e.rows, rows') in ChangeBatches(b, n, id, ColumnSet(e.schema), current, cs)
    ensures E.CommitRows(e, b, cs) == rows'
  {
  }

  lemma {:induction false} ResultRowsAre(e: E.State, b: Name, n: int, id: nat, current: Table, result: Table, rows': seq<Version>)
    requires b in e.branches && n == e.branches[b].headSeq + 1 && id == e.nextID + 1
    requires current == View(e.rows, E.HeadChain(e, b))
    requires (e.rows, rows') in ResultBatches(b, n, id, ColumnSet(e.schema), current, result)
    ensures (e, rows') in MergedRows(b, result)
  {
  }

  // Writing the versions of a list of keys is writing them key by key.

  lemma {:induction false} NextChange(rows: seq<Version>, b: Name, n: int, id: nat, cols: set<ColID>, current: Table, cs: ChangeSet, keys: seq<PK>, i: nat)
    requires i < |keys| && forall k :: k in keys ==> k in cs
    ensures WriteAll(rows, E.ChangeVersions(b, n, id, cols, current, cs, keys[..i + 1])) ==
            WriteAll(WriteAll(rows, E.ChangeVersions(b, n, id, cols, current, cs, keys[..i])),
              E.ChangeVersion(b, n, id, cols, keys[i], Lookup(current, keys[i]), cs[keys[i]]))
  {
    assert keys[..i + 1][..i] == keys[..i];
    WriteAllAppend(rows, E.ChangeVersions(b, n, id, cols, current, cs, keys[..i]),
      E.ChangeVersion(b, n, id, cols, keys[i], Lookup(current, keys[i]), cs[keys[i]]));
  }

  lemma {:induction false} NextUpsert(rows: seq<Version>, b: Name, n: int, id: nat, cols: set<ColID>, current: Table, t: Table, keys: seq<PK>, i: nat)
    requires i < |keys| && forall k :: k in keys ==> k in t
    ensures WriteAll(rows, E.UpsertVersions(b, n, id, cols, current, t, keys[..i + 1])) ==
            WriteAll(WriteAll(rows, E.UpsertVersions(b, n, id, cols, current, t, keys[..i])),
              E.UpsertVersion(b, n, id, cols, keys[i], Lookup(current, keys[i]), t[keys[i]]))
  {
    assert keys[..i + 1][..i] == keys[..i];
    WriteAllAppend(rows, E.UpsertVersions(b, n, id, cols, current, t, keys[..i]),
      E.UpsertVersion(b, n, id, cols, keys[i], Lookup(current, keys[i]), t[keys[i]]));
  }

  lemma {:induction false} NextTombstone(rows: seq<Version>, b: Name, n: int, id: nat, cols: set<ColID>, current: Table, t: Table, keys: seq<PK>, i: nat)
    requires i < |keys|
    ensures WriteAll(rows, E.TombstoneVersions(b, n, id, cols, current, t, keys[..i + 1])) ==
            WriteAll(WriteAll(rows, E.TombstoneVersions(b, n, id, cols, current, t, keys[..i])),
              E.TombstoneVersion(b, n, id, cols, keys[i], Lookup(current, keys[i]), keys[i] !in t))
  {
    assert keys[..i + 1][..i] == keys[..i];
    WriteAllAppend(rows, E.TombstoneVersions(b, n, id, cols, current, t, keys[..i]),
      E.TombstoneVersion(b, n, id, cols, keys[i], Lookup(current, keys[i]), keys[i] !in t));
  }

  lemma {:induction false} WriteAllOne(rows: seq<Version>, vs: seq<Version>)
    requires |vs| == 1
    ensures WriteAll(rows, vs) == Write(rows, vs[0])
  {
    assert vs[..0] == [];
  }

  /** A key's decision, comparing the touched columns. */
  ghost function NarrowedKeyDecision(schema: seq<ColID>, base: Table, ours: Table, theirs: Table, pk: PK, touched: set<ColID>): Decision {
    var b, a, t := Lookup(base, pk), Lookup(ours, pk), Lookup(theirs, pk);
    var br, ar, tr := RowOr(b), RowOr(a), RowOr(t);
    Decide(pk, b, a, t, MergedRow(br, ar, tr, ColumnSet(schema), touched), CellClashes(pk, br, ar, tr, SortedCols(touched)))
  }

  /** The keys decided as the two masks narrow them. */
  ghost function NarrowedBy(schema: seq<ColID>, base: Table, ours: Table, theirs: Table, maskO: Masks, maskT: Masks): iset<(PK, Decisions)> {
    iset x: (PK, Decisions) | x.0 in x.1 && x.1[x.0] == NarrowedKeyDecision(schema, base, ours, theirs, x.0, Bits(maskO, x.0) + Bits(maskT, x.0))
  }

  lemma {:induction false} NarrowedDecisions(schema: seq<ColID>, base: Table, ours: Table, theirs: Table, mask: map<PK, set<ColID>>)
    ensures var ds := DecideAll(schema, base, ours, theirs, Narrowed(mask));
      && ds.Keys == MergeKeys(base, ours, theirs)
      && forall pk :: pk in ds ==> ds[pk] == NarrowedKeyDecision(schema, base, ours, theirs, pk, MaskAt(mask, pk))
  {
  }
}
