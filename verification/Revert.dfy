/** Revert: undoing one commit. */
module Revert {
  // As in internal/store/revert.go: a new commit that takes back what a prior one changed.

  import opened Wrappers
  import opened Core
  import opened Versions
  import opened Lineage
  import opened Growth
  import opened ThreeWay
  import opened Writing
  import opened Batches
  import opened Advance
  import opened Agreement
  import opened Refinement
  import opened Changes
  import opened Guarantees
  import opened Outcomes
  import opened Provenance
  import IntervalEngine
  import E = IntervalMachine
  import M = SnapshotMachine

  datatype RevertOutcome =
    | Reverted(id: nat)
    | UnknownCommit
    | RootCommit
    | NothingToRevert
    | WouldDiscard(keys: set<PK>)
    | Failed(error: Error)

  function UndoEntry(x: Entry): Change {
    if x.op == Insert || x.before.None? then Change(Delete, map[])
    else if x.op == Delete then Change(Insert, x.before.value)
    else Change(Update, x.before.value)
  }

  /** The change set that takes every changed key back. */
  function UndoOf(entries: Entries): ChangeSet {
    map pk | pk in entries :: UndoEntry(entries[pk])
  }

  /** What the branch reads at a seq over the tail it has now. */
  ghost function BranchAt(e: E.State, b: Name, s: int): Table {
    View(e.rows, E.ChainFor(e, b, s))
  }

  /** Undoing a difference restores its keys and leaves every other key alone. */
  lemma {:induction false} UndoRestores(before: Table, after: Table, now: Table, cols: set<ColID>, pk: PK)
    ensures Lookup(M.Apply(now, UndoOf(FullEntries(before, after, cols))), pk) ==
      if Lookup(before, pk) != Lookup(after, pk) then Lookup(before, pk) else Lookup(now, pk)
  {
    EntriesTell(before, after, cols, pk);
  }

  /** The keys the commit changed that have moved since. */
  function Later(entries: Entries, since: Entries): set<PK> {
    set pk | pk in entries && pk in since
  }

  datatype Verdict = Refuse(outcome: RevertOutcome) | Accept(undo: ChangeSet)

  /** Revert is refused for the root commit, for a commit that changed nothing, and,
      unless forced, when a key it changed has changed again. */
  ghost function Judge(e: E.State, b: Name, s: int, force: bool): Verdict {
    if s == 0 then Refuse(RootCommit)
    else if b !in e.branches then Refuse(Failed(NoBranch))
    else
      var entries, since := BranchEntries(e, b, s - 1, E.UpTo(e, b, s)), BranchEntries(e, b, s, e.branches[b].headSeq);
      if entries == map[] then Refuse(NothingToRevert)
      else if !force && Later(entries, since) != {} then Refuse(WouldDiscard(Later(entries, since)))
      else Accept(UndoOf(entries))
  }

  /** The whole operation, the commit looked up by id; its seq alone says what it did. */
  ghost function RevertStep(e: E.State, b: Name, target: nat, force: bool): (E.State, RevertOutcome) {
    if target !in e.commits then (e, UnknownCommit)
    else
      match Judge(e, b, e.commits[target].at, force)
      case Refuse(outcome) => (e, outcome)
      case Accept(undo) =>
        var c := E.Commit(e, b, undo);
        (c.0, if c.1.Ok? then Reverted(c.1.value) else Failed(c.1.error))
  }

  method Consider(engine: IntervalEngine.Engine, b: Name, s: int, force: bool) returns (v: Verdict)
    ensures v == Judge(engine.State(), b, s, force)
  {
    if s == 0 {
      return Refuse(RootCommit);
    }
    var entries := engine.DiffEntries(b, s - 1, s);
    if entries.Err? {
      return Refuse(Failed(entries.error));
    }
    if entries.value == map[] {
      return Refuse(NothingToRevert);
    }
    var since := engine.DiffEntries(b, s, engine.branches[b].headSeq);
    var undo, changed := Undo(entries.value, since.value);
    if changed != {} && !force {
      return Refuse(WouldDiscard(changed));
    }
    return Accept(undo);
  }

  /** Revert: one new commit of the undoing changes, or a refusal that changes nothing. */
  method Revert(engine: IntervalEngine.Engine, b: Name, target: nat, force: bool) returns (r: RevertOutcome)
    modifies engine
    ensures (engine.State(), r) == RevertStep(old(engine.State()), b, target, force)
  {
    if target !in engine.commits {
      return UnknownCommit;
    }
    var v := Consider(engine, b, engine.commits[target].at, force);
    if v.Refuse? {
      return v.outcome;
    }
    var id := engine.Commit(b, v.undo);
    return Reverted(id.value);
  }

  /** The change that takes each key back, and the keys that have moved since. */
  method Undo(entries: Entries, since: Entries) returns (undo: ChangeSet, changed: set<PK>)
    ensures undo == UndoOf(entries) && changed == Later(entries, since)
  {
    undo, changed := map[], {};
    var rest := entries.Keys;
    while rest != {}
      invariant rest <= entries.Keys
      invariant undo == map pk | pk in entries && pk !in rest :: UndoEntry(entries[pk])
      invariant changed == set pk | pk in entries && pk !in rest && pk in since
      decreases rest
    {
      var pk :| pk in rest;
      if pk in since {
        changed := changed + {pk};
      }
      var x := entries[pk];
      if x.op == Insert || x.before.None? {
        undo := undo[pk := Change(Delete, map[])];
      } else if x.op == Delete {
        undo := undo[pk := Change(Insert, x.before.value)];
      } else {
        undo := undo[pk := Change(Update, x.before.value)];
      }
      rest := rest - {pk};
    }
  }

  // ----- what a commit makes the branch read -----

  lemma {:induction false} CommitView(e: E.State, h: History, m: M.State, b: Name, cs: ChangeSet)
    requires Joint(e, h, m) in Lockstep() && HasRoom(e) && b in e.branches
    ensures View(E.CommitRows(e, b, cs), [Segment(b, e.branches[b].headSeq + 1)] + e.branches[b].chain)
      == M.Apply(View(e.rows, E.HeadChain(e, b)), cs)
  {
    BranchFacts(e, h, m, b);
    CommitWrites(e, b, cs);
    CommitPlanView(e, h, CommitPlan(e, b, cs));
    CommitRowsPlanned(e, b, cs);
  }

  lemma {:induction false} CommitWrites(e: E.State, b: Name, cs: ChangeSet)
    requires b in e.branches
    ensures CommitPlan(e, b, cs) in SoundPlans()
  {
    var plan := CommitPlan(e, b, cs);
    ChangeWrites(b, plan.n, e.nextID + 1, ColsOf(e), plan.before, cs);
  }

  lemma {:induction false} CommitPlanView(e: E.State, h: History, plan: Plan)
    requires WellFormed(h) && SoundStore(e, h) && plan.branch in h && h[plan.branch] != []
    requires plan in SoundPlans() && plan.n == |h[plan.branch]| < MAX_SEQ && plan.cols == ColsOf(e)
    requires plan.before == View(e.rows, Top(h, plan.branch))
    ensures View(WriteAll(e.rows, plan.versions), NewChain(h, plan.branch, TopTail(h, plan.branch))) == plan.after
  {
    TopRecorded(h, plan.branch);
    SameTailIsNext(h, plan.branch);
    assert Top(h, plan.branch) == [Segment(plan.branch, plan.n - 1)] + TopTail(h, plan.branch);
    PlanStore(e, h, TopTail(h, plan.branch), plan);
    PlanView(e, h, TopTail(h, plan.branch), plan);
  }

  /** After a commit the branch reads as what it read, with the changes applied. */
  lemma {:induction false} CommitReads(e: E.State, h: History, m: M.State, b: Name, cs: ChangeSet)
    requires Joint(e, h, m) in Lockstep() && HasRoom(e) && b in e.branches
    ensures E.Resolve(E.Commit(e, b, cs).0, b) == Some(M.Apply(E.Resolve(e, b).value, cs))
  {
    CommitView(e, h, m, b, cs);
    RecordReads(e, b, E.CommitRows(e, b, cs), e.branches[b].headSeq + 1, e.nextID + 1, [e.branches[b].headCommit]);
  }

  lemma {:induction false} CommitRowsPlanned(e: E.State, b: Name, cs: ChangeSet)
    requires b in e.branches
    ensures E.CommitRows(e, b, cs) == WriteAll(e.rows, CommitPlan(e, b, cs).versions)
  {
  }

  lemma {:induction false} RecordReads(e: E.State, b: Name, rows': seq<Version>, n: int, id: nat, parents: seq<nat>)
    requires b in e.branches
    ensures E.Resolve(E.RecordCommit(e, rows', b, n, id, parents), b) == Some(View(rows', [Segment(b, n)] + e.branches[b].chain))
  {
  }

  /** The entries of a branch between two seqs are the whole difference of what it reads
      at them over the tail it has now. */
  lemma {:induction false} BranchEntriesFull(schema: seq<ColID>, e: E.State, b: Name, lo: int, hi: int)
    requires Reachable(schema, e) && b in e.branches && lo <= hi < MAX_SEQ
    ensures BranchEntries(e, b, lo, hi) == FullEntries(BranchAt(e, b, lo), BranchAt(e, b, hi), ColumnSet(schema))
  {
    var h, m := Paired(schema, e);
    StoreTiles(e, h, m);
    BranchFacts(e, h, m, b);
    ScanIsFull(e.rows, b, lo, hi, e.branches[b].chain, ColumnSet(schema));
  }

  /** Revert undoes exactly one commit: after an accepted revert of a seq of the
      branch, the keys that commit changed read as just before it, and every other key
      reads as at the head, all under the tail the branch has now. */
  lemma {:induction false} RevertUndoes(schema: seq<ColID>, e: E.State, b: Name, s: int, pk: PK)
    requires Reachable(schema, e) && b in e.branches && 1 <= s < MAX_SEQ
    ensures var e' := E.Commit(e, b, UndoOf(BranchEntries(e, b, s - 1, s))).0;
      && b in e'.branches
      && Lookup(E.Resolve(e', b).value, pk) ==
           if Lookup(BranchAt(e, b, s - 1), pk) != Lookup(BranchAt(e, b, s), pk) then Lookup(BranchAt(e, b, s - 1), pk)
           else Lookup(E.Resolve(e, b).value, pk)
  {
    var h, m := Paired(schema, e);
    BranchEntriesFull(schema, e, b, s - 1, s);
    CommitReads(e, h, m, b, UndoOf(BranchEntries(e, b, s - 1, s)));
    UndoRestores(BranchAt(e, b, s - 1), BranchAt(e, b, s), E.Resolve(e, b).value, ColumnSet(schema), pk);
  }

  // ----- what the commit itself changed -----

  /** The first parent of a commit, and its state. */
  function FirstParentOf(e: E.State, c: nat): nat {
    if c in e.commits && e.commits[c].parents != [] then e.commits[c].parents[0] else 0
  }

  ghost function StateBefore(e: E.State, c: nat): Table {
    E.StateAtCommit(e, FirstParentOf(e, c))
  }

  /** The tail the first parent was read over: before the branch's first commit, all of the
      parent's chain. */
  function TailBefore(e: E.State, c: nat): Chain {
    var p := FirstParentOf(e, c);
    if p !in e.commits then []
    else if c in e.commits && e.commits[c].at == 1 then e.commits[p].chain
    else TailOf(e, p)
  }

  lemma {:induction false} SeqOf(schema: seq<ColID>, e: E.State, b: Name, c: nat)
    requires Reachable(schema, e) && b in e.branches && c in e.commits && e.commits[c].branch == b
    ensures 0 <= e.commits[c].at <= e.branches[b].headSeq < MAX_SEQ
  {
    var h, m := Paired(schema, e);
    CommitOverTail(e, h, m, b, c);
  }

  lemma {:induction false} ReadOverTail(schema: seq<ColID>, e: E.State, b: Name, c: nat)
    requires Reachable(schema, e) && b in e.branches && c in e.commits && e.commits[c].branch == b
    ensures E.StateAtCommit(e, c) == View(e.rows, [Segment(b, e.commits[c].at)] + TailOf(e, c))
  {
    var h, m := Paired(schema, e);
    CommitOverTail(e, h, m, b, c);
  }

  lemma {:induction false} BeforeFirst(schema: seq<ColID>, e: E.State, b: Name, tail: Chain)
    requires Reachable(schema, e)
    ensures View(e.rows, [Segment(b, 0)] + tail) == View(e.rows, tail)
  {
    var h, m := Paired(schema, e);
    StoreTiles(e, h, m);
    forall i | 0 <= i < |e.rows| && e.rows[i].session == 0
      ensures 0 < e.rows[i].from
    {
      assert InRange(e.rows[i], Heads(h));
    }
    ForkView(e.rows, b, tail);
  }

  lemma {:induction false} ParentOverTail(schema: seq<ColID>, e: E.State, b: Name, c: nat)
    requires Reachable(schema, e) && b in e.branches && c in e.commits && e.commits[c].branch == b && e.commits[c].at >= 1
    ensures StateBefore(e, c) == View(e.rows, [Segment(b, e.commits[c].at - 1)] + TailBefore(e, c))
  {
    FirstParent(schema, e, c);
    if e.commits[c].at == 1 {
      BeforeFirst(schema, e, b, e.commits[FirstParentOf(e, c)].chain);
    } else {
      ReadOverTail(schema, e, b, FirstParentOf(e, c));
    }
  }

  /** What it takes for a key to be taken back. The branch reads head now. Only keys it said
      nothing about before the commit matter. If the commit said nothing either, the tails
      of the commit and its first parent must agree on the key, or the head already hold
      what the parent read. If the commit wrote y, the parent's tail and the present one
      must agree; or one of them holds y already, so that there is nothing to undo over it,
      and the head is what the other holds. */
  predicate KeyTakenBack(rows: seq<Version>, b: Name, s: int, tails: Tails, head: Option<Row>, pk: PK) {
    At(rows, b, s - 1, pk) == None ==>
      var x, x' := Live(rows, tails.now, pk), Live(rows, tails.first, pk);
      match At(rows, b, s, pk)
      case None => x' == Live(rows, tails.last, pk) || x' == head
      case Some(y) => x == x' || (x == y && x' == head) || (x' == y && x == head)
  }

  lemma {:induction false} TakenBackIff(rows: seq<Version>, heads: map<Name, int>, b: Name, s: int, tails: Tails, head: Option<Row>, pk: PK)
    requires Tiled(rows, heads) && Followed(rows) && s < MAX_SEQ
    ensures var x, y := Lookup(View(rows, [Segment(b, s - 1)] + tails.now), pk), Lookup(View(rows, [Segment(b, s)] + tails.now), pk);
      var x', y' := Lookup(View(rows, [Segment(b, s - 1)] + tails.first), pk), Lookup(View(rows, [Segment(b, s)] + tails.last), pk);
      (if x != y then x else head) == (if x' != y' then x' else head) <==> KeyTakenBack(rows, b, s, tails, head, pk)
  {
    OverTail(rows, b, s - 1, tails.now, pk);
    OverTail(rows, b, s, tails.now, pk);
    OverTail(rows, b, s - 1, tails.first, pk);
    OverTail(rows, b, s, tails.last, pk);
    if At(rows, b, s - 1, pk).Some? {
      AtPersists(rows, heads, b, s - 1, s, pk);
    }
  }

  /** A table with the difference of two others undone. */
  function Undone(now: Table, before: Table, after: Table, cols: set<ColID>): Table {
    M.Apply(now, UndoOf(FullEntries(before, after, cols)))
  }

  /** Every key is taken back. */
  ghost predicate AllTakenBack(rows: seq<Version>, b: Name, s: int, tails: Tails, head: Table) {
    forall pk :: KeyTakenBack(rows, b, s, tails, Lookup(head, pk), pk)
  }

  /** What the branch reads over the present tail just before and just after a commit of its
      own, and the states of the commit's first parent and of the commit. */
  datatype Around = Around(before: Table, after: Table, before': Table, after': Table)

  ghost predicate ReadAround(rows: seq<Version>, b: Name, s: int, tails: Tails, at: Around) {
    && at.before == View(rows, [Segment(b, s - 1)] + tails.now) && at.after == View(rows, [Segment(b, s)] + tails.now)
    && at.before' == View(rows, [Segment(b, s - 1)] + tails.first) && at.after' == View(rows, [Segment(b, s)] + tails.last)
  }

  lemma {:induction false} UndoneAt(rows: seq<Version>, heads: map<Name, int>, b: Name, s: int, tails: Tails, at: Around, head: Table, cols: set<ColID>, pk: PK)
    requires Tiled(rows, heads) && Followed(rows) && s < MAX_SEQ && ReadAround(rows, b, s, tails, at)
    ensures Lookup(Undone(head, at.before, at.after, cols), pk) == Lookup(Undone(head, at.before', at.after', cols), pk)
      <==> KeyTakenBack(rows, b, s, tails, Lookup(head, pk), pk)
  {
    UndoRestores(at.before, at.after, head, cols, pk);
    UndoRestores(at.before', at.after', head, cols, pk);
    TakenBackIff(rows, heads, b, s, tails, Lookup(head, pk), pk);
  }

  lemma {:induction false} UndoneAlike(rows: seq<Version>, heads: map<Name, int>, b: Name, s: int, tails: Tails, at: Around, head: Table, cols: set<ColID>)
    requires Tiled(rows, heads) && Followed(rows) && s < MAX_SEQ && ReadAround(rows, b, s, tails, at)
    ensures Undone(head, at.before, at.after, cols) == Undone(head, at.before', at.after', cols) <==> AllTakenBack(rows, b, s, tails, head)
  {
    var one, other := Undone(head, at.before, at.after, cols), Undone(head, at.before', at.after', cols);
    forall pk
      ensures Lookup(one, pk) == Lookup(other, pk) <==> KeyTakenBack(rows, b, s, tails, Lookup(head, pk), pk)
    {
      UndoneAt(rows, heads, b, s, tails, at, head, cols, pk);
    }
    if AllTakenBack(rows, b, s, tails, head) {
      SameLookups(one, other);
    }
  }

  /** The tails in play when a commit of the branch is reverted. */
  function RevertTails(e: E.State, b: Name, c: nat): Tails
    requires b in e.branches && c in e.commits
  {
    Tails(e.branches[b].chain, TailBefore(e, c), TailOf(e, c))
  }

  /** What the branch reads once its commit at the seq is reverted. */
  ghost function AfterRevert(e: E.State, b: Name, s: int): Table {
    OrEmpty(E.Resolve(E.Commit(e, b, UndoOf(BranchEntries(e, b, s - 1, s))).0, b))
  }

  lemma {:induction false} RevertedIs(schema: seq<ColID>, e: E.State, b: Name, s: int, before: Table, after: Table)
    requires Reachable(schema, e) && b in e.branches && 1 <= s < MAX_SEQ
    requires before == BranchAt(e, b, s - 1) && after == BranchAt(e, b, s)
    ensures AfterRevert(e, b, s) == Undone(E.Resolve(e, b).value, before, after, ColumnSet(schema))
  {
    var h, m := Paired(schema, e);
    BranchEntriesFull(schema, e, b, s - 1, s);
    CommitReads(e, h, m, b, UndoOf(BranchEntries(e, b, s - 1, s)));
  }

  lemma {:induction false} ReachedAlike(schema: seq<ColID>, e: E.State, b: Name, s: int, tails: Tails, at: Around, head: Table, cols: set<ColID>)
    requires Reachable(schema, e) && s < MAX_SEQ && ReadAround(e.rows, b, s, tails, at)
    ensures Undone(head, at.before, at.after, cols) == Undone(head, at.before', at.after', cols) <==> AllTakenBack(e.rows, b, s, tails, head)
  {
    var h, m := Paired(schema, e);
    StoreTiles(e, h, m);
    UndoneAlike(e.rows, Heads(h), b, s, tails, at, head, cols);
  }

  lemma {:induction false} AroundCommit(e: E.State, b: Name, c: nat) returns (at: Around)
    requires b in e.branches && c in e.commits
    requires StateBefore(e, c) == View(e.rows, [Segment(b, e.commits[c].at - 1)] + TailBefore(e, c))
    requires E.StateAtCommit(e, c) == View(e.rows, [Segment(b, e.commits[c].at)] + TailOf(e, c))
    ensures ReadAround(e.rows, b, e.commits[c].at, RevertTails(e, b, c), at)
    ensures at.before == BranchAt(e, b, e.commits[c].at - 1) && at.after == BranchAt(e, b, e.commits[c].at)
    ensures at.before' == StateBefore(e, c) && at.after' == E.StateAtCommit(e, c)
  {
    at := Around(BranchAt(e, b, e.commits[c].at - 1), BranchAt(e, b, e.commits[c].at), StateBefore(e, c), E.StateAtCommit(e, c));
  }

  lemma {:induction false} ReachedAround(schema: seq<ColID>, e: E.State, b: Name, c: nat) returns (at: Around)
    requires Reachable(schema, e) && b in e.branches && c in e.commits && e.commits[c].branch == b && e.commits[c].at >= 1
    ensures ReadAround(e.rows, b, e.commits[c].at, RevertTails(e, b, c), at)
    ensures at.before == BranchAt(e, b, e.commits[c].at - 1) && at.after == BranchAt(e, b, e.commits[c].at)
    ensures at.before' == StateBefore(e, c) && at.after' == E.StateAtCommit(e, c)
  {
    ParentOverTail(schema, e, b, c);
    ReadOverTail(schema, e, b, c);
    at := AroundCommit(e, b, c);
  }

  lemma {:induction false} TakesBackAround(schema: seq<ColID>, e: E.State, b: Name, s: int, tails: Tails, at: Around)
    requires Reachable(schema, e) && b in e.branches && 1 <= s < MAX_SEQ
    requires ReadAround(e.rows, b, s, tails, at) && at.before == BranchAt(e, b, s - 1) && at.after == BranchAt(e, b, s)
    ensures AfterRevert(e, b, s) == Undone(E.Resolve(e, b).value, at.before', at.after', ColumnSet(schema))
      <==> AllTakenBack(e.rows, b, s, tails, E.Resolve(e, b).value)
  {
    RevertedIs(schema, e, b, s, at.before, at.after);
    ReachedAlike(schema, e, b, s, tails, at, E.Resolve(e, b).value, ColumnSet(schema));
  }

  /** Reverting a commit leaves the branch as if what the commit changed, its state against
      its first parent's, were undone exactly when the tails and the head allow every key
      to be taken back. */
  lemma {:induction false} RevertTakesBack(schema: seq<ColID>, e: E.State, b: Name, c: nat)
    requires Reachable(schema, e) && b in e.branches && c in e.commits && e.commits[c].branch == b && e.commits[c].at >= 1
    ensures AfterRevert(e, b, e.commits[c].at) == Undone(E.Resolve(e, b).value, StateBefore(e, c), E.StateAtCommit(e, c), ColumnSet(schema))
      <==> AllTakenBack(e.rows, b, e.commits[c].at, RevertTails(e, b, c), E.Resolve(e, b).value)
  {
    var at := ReachedAround(schema, e, b, c);
    SeqOf(schema, e, b, c);
    TakesBackAround(schema, e, b, e.commits[c].at, RevertTails(e, b, c), at);
  }

  /** They do, whatever the head, when the tails allow the entries of the commit. */
  lemma {:induction false} AllowsTakingBack(rows: seq<Version>, b: Name, s: int, tails: Tails, head: Table)
    requires EntriesAllowed(rows, b, s - 1, s, tails)
    ensures AllTakenBack(rows, b, s, tails, head)
  {
    forall pk
      ensures KeyTakenBack(rows, b, s, tails, Lookup(head, pk), pk)
    {
      assert EntryAllowed(rows, b, s - 1, s, tails, pk);
    }
  }

  lemma {:induction false} LaterIff(before: Table, after: Table, now: Table, cols: set<ColID>)
    ensures Later(FullEntries(before, after, cols), FullEntries(after, now, cols)) == {} <==>
      forall pk :: Lookup(before, pk) != Lookup(after, pk) ==> Lookup(after, pk) == Lookup(now, pk)
  {
    forall pk
      ensures pk in Later(FullEntries(before, after, cols), FullEntries(after, now, cols)) <==>
        Lookup(before, pk) != Lookup(after, pk) && Lookup(after, pk) != Lookup(now, pk)
    {
      EntriesTell(before, after, cols, pk);
      EntriesTell(after, now, cols, pk);
    }
  }

  /** A revert is accepted without force exactly when no key it would take back has a
      different value at the head than just after the commit. */
  lemma {:induction false} AcceptedIffUnmoved(schema: seq<ColID>, e: E.State, b: Name, s: int)
    requires Reachable(schema, e) && b in e.branches && 1 <= s < MAX_SEQ
    ensures Later(BranchEntries(e, b, s - 1, s), BranchEntries(e, b, s, e.branches[b].headSeq)) == {} <==>
      forall pk :: Lookup(BranchAt(e, b, s - 1), pk) != Lookup(BranchAt(e, b, s), pk) ==> Lookup(BranchAt(e, b, s), pk) == Lookup(E.Resolve(e, b).value, pk)
  {
    BranchEntriesFull(schema, e, b, s - 1, s);
    SinceFull(schema, e, b, s);
    LaterIff(BranchAt(e, b, s - 1), BranchAt(e, b, s), E.Resolve(e, b).value, ColumnSet(schema));
  }

  // ----- what Revert answers -----

  /** At its head seq and past it the branch reads as it does now. */
  lemma {:induction false} PastHead(schema: seq<ColID>, e: E.State, b: Name, s: int)
    requires Reachable(schema, e) && b in e.branches && e.branches[b].headSeq <= s < MAX_SEQ
    ensures BranchAt(e, b, s) == E.Resolve(e, b).value
  {
    var h, m := Paired(schema, e);
    StoreTiles(e, h, m);
    BranchFacts(e, h, m, b);
    forall pk
      ensures Lookup(BranchAt(e, b, s), pk) == Lookup(E.Resolve(e, b).value, pk)
    {
      ScanMisses(e.rows, b, e.branches[b].headSeq, s, e.branches[b].chain, pk);
      NothingPastHead(e, h, b, s);
    }
    SameLookups(BranchAt(e, b, s), E.Resolve(e, b).value);
  }

  lemma {:induction false} NothingPastHead(e: E.State, h: History, b: Name, s: int)
    requires Tiled(e.rows, Heads(h)) && b in e.branches && b in h && |h[b]| == e.branches[b].headSeq + 1
    ensures WrittenKeys(e.rows, b, e.branches[b].headSeq, s) == {}
  {
    forall i | 0 <= i < |e.rows| && e.rows[i].session == 0 && e.rows[i].branch == b
      ensures e.rows[i].from <= e.branches[b].headSeq
    {
      assert InRange(e.rows[i], Heads(h));
    }
  }

  /** What changed since the seq, also when it lies past the head. */
  lemma {:induction false} SinceFull(schema: seq<ColID>, e: E.State, b: Name, s: int)
    requires Reachable(schema, e) && b in e.branches && 0 <= s < MAX_SEQ
    ensures BranchEntries(e, b, s, e.branches[b].headSeq) == FullEntries(BranchAt(e, b, s), E.Resolve(e, b).value, ColumnSet(schema))
  {
    var head := e.branches[b].headSeq;
    HeadInRange(schema, e, b);
    if s <= head {
      BranchEntriesFull(schema, e, b, s, head);
    } else {
      PastHead(schema, e, b, s);
      NothingBackward(e, b, s, head);
      NoEntries(BranchAt(e, b, s), ColumnSet(schema));
    }
  }

  lemma {:induction false} HeadInRange(schema: seq<ColID>, e: E.State, b: Name)
    requires Reachable(schema, e) && b in e.branches
    ensures 0 <= e.branches[b].headSeq < MAX_SEQ
  {
    var h, m := Paired(schema, e);
    BranchFacts(e, h, m, b);
  }

  lemma {:induction false} NothingBackward(e: E.State, b: Name, lo: int, hi: int)
    requires hi <= lo
    ensures BranchEntries(e, b, lo, hi) == map[]
  {
    assert WrittenKeys(e.rows, b, lo, hi) == {};
  }

  lemma {:induction false} NoEntries(t: Table, cols: set<ColID>)
    ensures FullEntries(t, t, cols) == map[]
  {
  }

  /** The keys that changed at the seq, and those of them that hold another value now. */
  ghost function ChangedKeys(before: Table, after: Table): set<PK> {
    set pk | pk in before.Keys + after.Keys && Lookup(before, pk) != Lookup(after, pk)
  }

  ghost function MovedKeys(before: Table, after: Table, now: Table): set<PK> {
    set pk | pk in ChangedKeys(before, after) && Lookup(now, pk) != Lookup(after, pk)
  }

  lemma {:induction false} LaterIs(before: Table, after: Table, now: Table, cols: set<ColID>)
    ensures Later(FullEntries(before, after, cols), FullEntries(after, now, cols)) == MovedKeys(before, after, now)
    ensures FullEntries(before, after, cols) == map[] <==> before == after
  {
    forall pk
      ensures pk in Later(FullEntries(before, after, cols), FullEntries(after, now, cols)) <==> pk in MovedKeys(before, after, now)
    {
      EntriesTell(before, after, cols, pk);
      EntriesTell(after, now, cols, pk);
    }
    if FullEntries(before, after, cols) == map[] {
      forall pk
        ensures Lookup(before, pk) == Lookup(after, pk)
      {
        EntriesTell(before, after, cols, pk);
      }
      SameLookups(before, after);
    }
  }

  /** The verdict on the seq, by the tables alone. */
  lemma {:induction false} JudgeDecides(schema: seq<ColID>, e: E.State, b: Name, s: int, force: bool)
    requires Reachable(schema, e) && b in e.branches && 1 <= s < MAX_SEQ
    ensures var before, after, now := BranchAt(e, b, s - 1), BranchAt(e, b, s), E.Resolve(e, b).value;
      Judge(e, b, s, force) ==
        if before == after then Refuse(NothingToRevert)
        else if !force && MovedKeys(before, after, now) != {} then Refuse(WouldDiscard(MovedKeys(before, after, now)))
        else Accept(UndoOf(BranchEntries(e, b, s - 1, s)))
  {
    BranchEntriesFull(schema, e, b, s - 1, s);
    SinceFull(schema, e, b, s);
    LaterIs(BranchAt(e, b, s - 1), BranchAt(e, b, s), E.Resolve(e, b).value, ColumnSet(schema));
  }

  lemma {:induction false} SeqInRange(schema: seq<ColID>, e: E.State, id: nat)
    requires Reachable(schema, e) && id in e.commits
    ensures 0 <= e.commits[id].at < MAX_SEQ
  {
    var h, m := Paired(schema, e);
    assert CommitTracked(e, h, id);
    assert BranchTracked(e, h, e.commits[id].chain[0].branch);
  }

  lemma {:induction false} CommitRecords(e: E.State, b: Name, cs: ChangeSet)
    requires b in e.branches
    ensures var (e', o) := E.Commit(e, b, cs);
      && o == Ok(e.nextID + 1) && E.Head(e', b) == e.nextID + 1 && b in e'.branches
      && e.nextID + 1 in e'.commits && e'.commits[e.nextID + 1].parents == [E.Head(e, b)]
  {
  }

  /** The branch has a new commit on its head, the keys that changed at the seq are back to
      what they were before it, and all others read as they did. */
  ghost predicate TakenBack(e: E.State, e': E.State, b: Name, s: int, id: nat)
    requires b in e.branches
  {
    && id !in e.commits && id in e'.commits && e'.commits[id].parents == [E.Head(e, b)] && E.Head(e', b) == id
    && b in e'.branches
    && forall pk :: Lookup(E.Resolve(e', b).value, pk) ==
         if pk in ChangedKeys(BranchAt(e, b, s - 1), BranchAt(e, b, s)) then Lookup(BranchAt(e, b, s - 1), pk)
         else Lookup(E.Resolve(e, b).value, pk)
  }

  lemma {:induction false} AcceptedTakesBack(schema: seq<ColID>, e: E.State, b: Name, s: int)
    requires Reachable(schema, e) && b in e.branches && 1 <= s < MAX_SEQ
    ensures var (e', o) := E.Commit(e, b, UndoOf(BranchEntries(e, b, s - 1, s)));
      o.Ok? && TakenBack(e, e', b, s, o.value)
  {
    var undo := UndoOf(BranchEntries(e, b, s - 1, s));
    CommitRecords(e, b, undo);
    NewIds(schema, e);
    forall pk {
      RevertUndoes(schema, e, b, s, pk);
    }
  }

  lemma {:induction false} StepFollows(e: E.State, b: Name, target: nat, force: bool, v: Verdict)
    requires target in e.commits && v == Judge(e, b, e.commits[target].at, force)
    ensures v.Refuse? ==> RevertStep(e, b, target, force) == (e, v.outcome)
    ensures v.Accept? && E.Commit(e, b, v.undo).1.Ok? ==>
      RevertStep(e, b, target, force) == (E.Commit(e, b, v.undo).0, Reverted(E.Commit(e, b, v.undo).1.value))
  {
  }

  lemma {:induction false} KnownAnswers(schema: seq<ColID>, e: E.State, b: Name, target: nat, force: bool)
    requires Reachable(schema, e) && target in e.commits && 1 <= e.commits[target].at < MAX_SEQ && b in e.branches
    ensures var s, (e', o) := e.commits[target].at, RevertStep(e, b, target, force);
      var before, after := BranchAt(e, b, s - 1), BranchAt(e, b, s);
      var moved := MovedKeys(before, after, E.Resolve(e, b).value);
      if before == after then (e', o) == (e, NothingToRevert)
      else if !force && moved != {} then (e', o) == (e, WouldDiscard(moved))
      else o.Reverted? && TakenBack(e, e', b, s, o.id)
  {
    var s := e.commits[target].at;
    var v := Judge(e, b, s, force);
    StepFollows(e, b, target, force, v);
    JudgeDecides(schema, e, b, s, force);
    if v.Accept? {
      AcceptedTakesBack(schema, e, b, s);
    }
  }

  /** Revert, in full, in every reachable state and for any commit. An unknown commit, a root
      commit and an unknown branch are refused. Otherwise what counts is what the branch reads
      just before and at the commit's seq: when the two are equal there is nothing to revert;
      unforced it is refused when keys that changed there hold another value now, and the
      refusal names exactly those; in every other case those changes, and only those, are
      taken back in one new commit. A refusal changes nothing. */
  lemma {:induction false} RevertAnswers(schema: seq<ColID>, e: E.State, b: Name, target: nat, force: bool)
    requires Reachable(schema, e)
    ensures target !in e.commits ==> RevertStep(e, b, target, force) == (e, UnknownCommit)
    ensures target in e.commits && e.commits[target].at == 0 ==> RevertStep(e, b, target, force) == (e, RootCommit)
    ensures target in e.commits && e.commits[target].at != 0 && b !in e.branches ==> RevertStep(e, b, target, force) == (e, Failed(NoBranch))
    ensures target in e.commits && e.commits[target].at != 0 && b in e.branches ==>
      var s, (e', o) := e.commits[target].at, RevertStep(e, b, target, force);
      var before, after := BranchAt(e, b, s - 1), BranchAt(e, b, s);
      var moved := MovedKeys(before, after, E.Resolve(e, b).value);
      if before == after then (e', o) == (e, NothingToRevert)
      else if !force && moved != {} then (e', o) == (e, WouldDiscard(moved))
      else o.Reverted? && TakenBack(e, e', b, s, o.id)
  {
    if target in e.commits && e.commits[target].at != 0 && b in e.branches {
      SeqInRange(schema, e, target);
      KnownAnswers(schema, e, b, target, force);
    }
  }
}
