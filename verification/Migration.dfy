/** The journalled migration, cut short and resumed. */
module Migration {
  import opened Wrappers

  // ----- schema changes (internal/adapter/mysql/ddl.go) -----

  datatype Column = Column(sqlType: string, nullable: bool, holdsNull: bool)

  /** The columns of one physical table. */
  type Schema = map<string, Column>

  datatype Ddl =
    | AddColumn(col: string, sqlType: string)
    | DropColumn(col: string)
    | DeprecateColumn(col: string)
    | RenameColumn(from: string, to: string)
    | AlterColumnType(col: string, sqlType: string)
    | SetNotNull(col: string, sqlType: string)
    | DropNotNull(col: string, sqlType: string)
    | PreflightNotNull(col: string)

  /** One statement on a schema: the schema after it, or None when it fails. Adding,
      dropping and renaming test the catalogue first and do nothing when already done;
      MODIFY COLUMN restates the whole definition. */
  function Effect(op: Ddl, s: Schema): Option<Schema> {
    match op
    case AddColumn(c, ty) => Some(if c in s then s else s[c := Column(ty, true, true)])
    case DropColumn(c) => Some(if c in s then s - {c} else s)
    case DeprecateColumn(_) => Some(s)
    case RenameColumn(f, t) =>
      if f !in s then Some(s)
      else if t in s && t != f then None
      else Some((s - {f})[t := s[f]])
    case AlterColumnType(c, ty) => if c in s then Some(s[c := Column(ty, true, s[c].holdsNull)]) else None
    case SetNotNull(c, ty) => if c in s && !s[c].holdsNull then Some(s[c := Column(ty, false, false)]) else None
    case DropNotNull(c, ty) => if c in s then Some(s[c := Column(ty, true, s[c].holdsNull)]) else None
    case PreflightNotNull(c) => if c in s && !s[c].holdsNull then Some(s) else None
  }

  /** Every generated statement is safe to run again right after it succeeded. */
  lemma {:induction false} Rerunnable(op: Ddl, s: Schema)
    requires Effect(op, s).Some?
    ensures Effect(op, Effect(op, s).value) == Effect(op, s)
  {
    var r := Effect(op, s).value;
    match op
    case RenameColumn(f, t) => assert f in s && f == t ==> r == s;
    case AlterColumnType(c, _) => assert r[c := r[c]] == r;
    case SetNotNull(c, _) => assert r[c := r[c]] == r;
    case DropNotNull(c, _) => assert r[c := r[c]] == r;
    case _ =>
  }

  // ----- what a statement does, column by column -----

  function ColumnAt(s: Schema, c: string): Option<Column> {
    if c in s then Some(s[c]) else None
  }

  lemma {:induction false} SameSchema(s: Schema, s': Schema)
    requires forall c :: ColumnAt(s, c) == ColumnAt(s', c)
    ensures s == s'
  {
    forall c
      ensures c in s <==> c in s'
      ensures c in s ==> s[c] == s'[c]
    {
      assert ColumnAt(s, c) == ColumnAt(s', c);
    }
  }

  /** The columns a statement may change. */
  function Names(op: Ddl): set<string> {
    match op
    case AddColumn(c, _) => {c}
    case DropColumn(c) => {c}
    case DeprecateColumn(_) => {}
    case RenameColumn(f, t) => {f, t}
    case AlterColumnType(c, _) => {c}
    case SetNotNull(c, _) => {c}
    case DropNotNull(c, _) => {c}
    case PreflightNotNull(_) => {}
  }

  /** When the server refuses it: a rename onto another column, a change of a column that is
      not there, a NOT NULL on one that holds a NULL. */
  predicate Refused(op: Ddl, s: Schema) {
    match op
    case RenameColumn(f, t) => f in s && t in s && f != t
    case AlterColumnType(c, _) => c !in s
    case DropNotNull(c, _) => c !in s
    case SetNotNull(c, _) => c in s ==> s[c].holdsNull
    case PreflightNotNull(c) => c in s ==> s[c].holdsNull
    case _ => false
  }

  /** The named column has the stated type and nullability, and its data are as before. */
  predicate Redefined(s: Schema, s': Schema, c: string, sqlType: string, nullable: bool) {
    c in s && c in s' && s'[c].sqlType == sqlType && s'[c].nullable == nullable && s'[c].holdsNull == s[c].holdsNull
  }

  /** What it leaves: every column it does not name as it was, and of the others what it is
      for. */
  ghost predicate Leaves(op: Ddl, s: Schema, s': Schema) {
    && (forall c :: c !in Names(op) ==> ColumnAt(s', c) == ColumnAt(s, c))
    && match op
       case AddColumn(c, ty) => c in s' && s'[c] == if c in s then s[c] else Column(ty, true, true)
       case DropColumn(c) => c !in s'
       case RenameColumn(f, t) =>
         && (f in s ==> t in s' && s'[t] == s[f])
         && (f !in s ==> ColumnAt(s', t) == ColumnAt(s, t))
         && (f != t ==> f !in s')
       case AlterColumnType(c, ty) => Redefined(s, s', c, ty, true)
       case SetNotNull(c, ty) => Redefined(s, s', c, ty, false)
       case DropNotNull(c, ty) => Redefined(s, s', c, ty, true)
       case _ => true
  }

  /** A statement's effect is the one schema it should leave, unless it is refused. */
  lemma {:induction false} StatementIs(op: Ddl, s: Schema, s': Schema)
    ensures Effect(op, s) == Some(s') <==> !Refused(op, s) && Leaves(op, s, s')
  {
    if !Refused(op, s) && Leaves(op, s, s') {
      var r := Effect(op, s).value;
      forall c
        ensures ColumnAt(s', c) == ColumnAt(r, c)
      {
        LeavesColumn(op, s, s', c);
      }
      SameSchema(s', r);
    }
  }

  lemma {:induction false} LeavesColumn(op: Ddl, s: Schema, s': Schema, c: string)
    requires !Refused(op, s) && Leaves(op, s, s')
    ensures ColumnAt(s', c) == ColumnAt(Effect(op, s).value, c)
  {
  }

  lemma {:induction false} FailsIff(op: Ddl, s: Schema)
    ensures Effect(op, s) == None <==> Refused(op, s)
  {
  }

  // ----- plans -----

  datatype MigrationStep = MigrationStep(ordinal: nat, op: Ddl)
  type MigrationPlan = seq<MigrationStep>

  predicate WellNumbered(plan: MigrationPlan) {
    forall i, j :: 0 <= i < j < |plan| ==> plan[i].ordinal != plan[j].ordinal
  }

  /** The clean run: every step in turn, None as soon as one fails. */
  function CleanRun(plan: MigrationPlan, s: Schema): Option<Schema>
    decreases |plan|
  {
    if plan == [] then Some(s)
    else
      match CleanRun(plan[..|plan| - 1], s)
      case Some(mid) => Effect(plan[|plan| - 1].op, mid)
      case None => None
  }

  /** A run that fails on the way fails. */
  lemma {:induction false} CleanFails(plan: MigrationPlan, s: Schema, k: nat)
    requires k <= |plan|
    ensures CleanRun(plan[..k], s) == None ==> CleanRun(plan, s) == None
    decreases |plan|
  {
    if k < |plan| {
      CleanFails(plan[..|plan| - 1], s, k);
      assert plan[..|plan| - 1][..k] == plan[..k];
    } else {
      assert plan[..k] == plan;
    }
  }

  // ----- what a plan does -----

  /** The schemas a plan goes through, one statement at a time. */
  ghost predicate Trace(plan: MigrationPlan, trace: seq<Schema>) {
    && |trace| == |plan| + 1
    && forall i :: 0 <= i < |plan| ==> !Refused(plan[i].op, trace[i]) && Leaves(plan[i].op, trace[i], trace[i + 1])
  }

  lemma {:induction false} TraceEnds(plan: MigrationPlan, trace: seq<Schema>)
    requires Trace(plan, trace)
    ensures CleanRun(plan, trace[0]) == Some(trace[|plan|])
    decreases |plan|
  {
    if plan != [] {
      var n := |plan| - 1;
      TraceEnds(plan[..n], trace[..n + 1]);
      StatementIs(plan[n].op, trace[n], trace[n + 1]);
    }
  }

  lemma {:induction false} TraceExists(plan: MigrationPlan, s0: Schema) returns (trace: seq<Schema>)
    requires CleanRun(plan, s0).Some?
    ensures Trace(plan, trace) && trace[0] == s0 && Some(trace[|plan|]) == CleanRun(plan, s0)
    decreases |plan|
  {
    if plan == [] {
      trace := [s0];
    } else {
      var n := |plan| - 1;
      var before := TraceExists(plan[..n], s0);
      trace := before + [CleanRun(plan, s0).value];
      StatementIs(plan[n].op, before[n], trace[n + 1]);
    }
  }

  /** The clean run reaches a schema exactly when the plan's statements, none refused, lead
      there one after the other. */
  lemma {:induction false} CleanRunIs(plan: MigrationPlan, s0: Schema, s: Schema)
    ensures CleanRun(plan, s0) == Some(s) <==> exists trace :: Trace(plan, trace) && trace[0] == s0 && trace[|plan|] == s
  {
    if CleanRun(plan, s0) == Some(s) {
      var trace := TraceExists(plan, s0);
    }
    if trace :| Trace(plan, trace) && trace[0] == s0 && trace[|plan|] == s {
      TraceEnds(plan, trace);
    }
  }

  // ----- what a plan leaves of a column -----

  /** The k-th statement is the last one that names the column. */
  ghost predicate LastNaming(plan: MigrationPlan, k: int, c: string) {
    0 <= k < |plan| && c in Names(plan[k].op) && Unnamed(plan, k + 1, c)
  }

  /** No statement from j on names the column. */
  ghost predicate Unnamed(plan: MigrationPlan, j: nat, c: string) {
    forall i :: j <= i < |plan| ==> c !in Names(plan[i].op)
  }

  /** What the last statement that names a column leaves of it. */
  predicate Settled(op: Ddl, s: Schema, c: string) {
    match op
    case AddColumn(_, _) => c in s
    case DropColumn(_) => c !in s
    case RenameColumn(f, t) => f != t && c == f ==> c !in s
    case AlterColumnType(_, ty) => c in s && s[c].sqlType == ty && s[c].nullable
    case SetNotNull(_, ty) => c in s && s[c].sqlType == ty && !s[c].nullable && !s[c].holdsNull
    case DropNotNull(_, ty) => c in s && s[c].sqlType == ty && s[c].nullable
    case _ => true
  }

  /** The plan has no such column left when it comes to the k-th statement: the table never
      had it, or the last statement to name it before dropped it or renamed it away. */
  ghost predicate GoneBefore(plan: MigrationPlan, k: nat, s0: Schema, c: string)
    requires k <= |plan|
  {
    || (Unnamed(plan[..k], 0, c) && c !in s0)
    || exists j :: LastNaming(plan[..k], j, c) && (plan[..k][j].op == DropColumn(c) || RenamedAway(plan[..k][j].op, c))
  }

  predicate RenamedAway(op: Ddl, c: string) {
    op.RenameColumn? && op.from == c && op.to != c
  }

  /** A column no statement names is as it was; any other is what the last statement to name
      it should leave, with its stated type where that one added it anew. */
  ghost predicate ColumnDone(plan: MigrationPlan, s0: Schema, s: Schema, c: string) {
    && (Unnamed(plan, 0, c) ==> ColumnAt(s, c) == ColumnAt(s0, c))
    && forall k :: LastNaming(plan, k, c) ==>
         && Settled(plan[k].op, s, c)
         && (plan[k].op.AddColumn? && GoneBefore(plan, k, s0, c) ==> ColumnAt(s, c) == Some(Column(plan[k].op.sqlType, true, true)))
  }

  lemma {:induction false} UnnamedSame(plan: MigrationPlan, s0: Schema, j: nat, c: string)
    requires CleanRun(plan, s0).Some? && j <= |plan| && Unnamed(plan, j, c)
    ensures CleanRun(plan[..j], s0).Some?
    ensures ColumnAt(CleanRun(plan, s0).value, c) == ColumnAt(CleanRun(plan[..j], s0).value, c)
    decreases |plan|
  {
    if j == |plan| {
      assert plan[..j] == plan;
    } else {
      var n := |plan| - 1;
      var mid := CleanRun(plan[..n], s0).value;
      StatementIs(plan[n].op, mid, CleanRun(plan, s0).value);
      UnnamedSame(plan[..n], s0, j, c);
      assert plan[..n][..j] == plan[..j];
    }
  }

  /** The last statement that names a column finds some schema and decides the column. */
  lemma {:induction false} LastDecides(plan: MigrationPlan, s0: Schema, k: nat, c: string)
    requires CleanRun(plan, s0).Some? && LastNaming(plan, k, c)
    ensures CleanRun(plan[..k], s0).Some? && CleanRun(plan[..k + 1], s0).Some?
    ensures !Refused(plan[k].op, CleanRun(plan[..k], s0).value)
    ensures Leaves(plan[k].op, CleanRun(plan[..k], s0).value, CleanRun(plan[..k + 1], s0).value)
    ensures ColumnAt(CleanRun(plan, s0).value, c) == ColumnAt(CleanRun(plan[..k + 1], s0).value, c)
  {
    UnnamedSame(plan, s0, k + 1, c);
    assert plan[..k + 1][..k] == plan[..k];
    StatementIs(plan[k].op, CleanRun(plan[..k], s0).value, CleanRun(plan[..k + 1], s0).value);
  }

  lemma {:induction false} LastSettles(plan: MigrationPlan, s0: Schema, k: nat, c: string)
    requires CleanRun(plan, s0).Some? && LastNaming(plan, k, c)
    ensures Settled(plan[k].op, CleanRun(plan, s0).value, c)
  {
    LastDecides(plan, s0, k, c);
  }

  lemma {:induction false} GoneIsAbsent(plan: MigrationPlan, s0: Schema, k: nat, c: string)
    requires k <= |plan| && CleanRun(plan[..k], s0).Some? && GoneBefore(plan, k, s0, c)
    ensures c !in CleanRun(plan[..k], s0).value
  {
    if j :| LastNaming(plan[..k], j, c) && (plan[..k][j].op == DropColumn(c) || RenamedAway(plan[..k][j].op, c)) {
      LastSettles(plan[..k], s0, j, c);
    } else {
      UnnamedSame(plan[..k], s0, 0, c);
      assert plan[..k][..0] == [];
    }
  }

  /** After a finished plan every column is done. */
  lemma {:induction false} ColumnsDone(plan: MigrationPlan, s0: Schema, c: string)
    requires CleanRun(plan, s0).Some?
    ensures ColumnDone(plan, s0, CleanRun(plan, s0).value, c)
  {
    if Unnamed(plan, 0, c) {
      UnnamedSame(plan, s0, 0, c);
      assert plan[..0] == [];
    }
    forall k | LastNaming(plan, k, c)
      ensures Settled(plan[k].op, CleanRun(plan, s0).value, c)
      ensures plan[k].op.AddColumn? && GoneBefore(plan, k, s0, c) ==>
        ColumnAt(CleanRun(plan, s0).value, c) == Some(Column(plan[k].op.sqlType, true, true))
    {
      LastDecides(plan, s0, k, c);
      LastSettles(plan, s0, k, c);
      if GoneBefore(plan, k, s0, c) {
        GoneIsAbsent(plan, s0, k, c);
      }
    }
  }

  // ----- the journal and the attempts -----

  datatype Attempt = Finished | Crashed | Failed

  /** The schemas and completion marks with exactly the first k steps marked complete,
      their effects in place, and at most the next step's effect too. */
  ghost function Stages(plan: MigrationPlan, s0: Schema, k: nat): iset<(Schema, set<nat>)> {
    iset x: (Schema, set<nat>) |
      && k <= |plan|
      && (forall i :: 0 <= i < |plan| ==> (plan[i].ordinal in x.1 <==> i < k))
      && (Some(x.0) == CleanRun(plan[..k], s0) || (k < |plan| && Some(x.0) == CleanRun(plan[..k + 1], s0)))
  }

  lemma {:induction false} StageZero(plan: MigrationPlan, s0: Schema, completed: set<nat>)
    requires forall i :: 0 <= i < |plan| ==> plan[i].ordinal !in completed
    ensures (s0, completed) in Stages(plan, s0, 0)
  {
    assert plan[..0] == [];
  }

  lemma {:induction false} StageMarks(plan: MigrationPlan, s0: Schema, k: nat, s: Schema, completed: set<nat>)
    requires (s, completed) in Stages(plan, s0, k)
    ensures k <= |plan| && forall i :: 0 <= i < |plan| ==> (plan[i].ordinal in completed <==> i < k)
    ensures k == |plan| ==> Some(s) == CleanRun(plan, s0)
  {
    assert plan[..|plan|] == plan;
  }

  /** Running the next step, whether or not it already took effect: it succeeds exactly
      when the clean run gets past it, and leaves what the clean run leaves. */
  lemma {:induction false} NextStep(plan: MigrationPlan, s0: Schema, k: nat, s: Schema, completed: set<nat>)
    requires (s, completed) in Stages(plan, s0, k) && k < |plan|
    ensures Effect(plan[k].op, s) == CleanRun(plan[..k + 1], s0)
    ensures Effect(plan[k].op, s).Some? ==> (Effect(plan[k].op, s).value, completed) in Stages(plan, s0, k)
  {
    assert plan[..k + 1][..k] == plan[..k] && plan[..k + 1][k] == plan[k];
    if Some(s) != CleanRun(plan[..k], s0) {
      Rerunnable(plan[k].op, CleanRun(plan[..k], s0).value);
    }
  }

  lemma {:induction false} StageMarked(plan: MigrationPlan, s0: Schema, k: nat, s: Schema, completed: set<nat>)
    requires WellNumbered(plan) && k < |plan| && (s, completed) in Stages(plan, s0, k) && Some(s) == CleanRun(plan[..k + 1], s0)
    ensures (s, completed + {plan[k].ordinal}) in Stages(plan, s0, k + 1)
  {
    forall i | 0 <= i < |plan|
      ensures plan[i].ordinal in completed + {plan[k].ordinal} <==> i < k + 1
    {
      assert i < k ==> plan[i].ordinal != plan[k].ordinal;
      assert k < i ==> plan[k].ordinal != plan[i].ordinal;
    }
  }

  /** The schema and the journal rows of one plan. A crash keeps both. */
  class Database {
    var schema: Schema
    var known: set<nat>
    var started: set<nat>
    var completed: set<nat>

    constructor (schema: Schema)
      ensures this.schema == schema && known == started == completed == {}
    {
      this.schema := schema;
      known, started, completed := {}, {}, {};
    }

    ghost predicate Underway(plan: MigrationPlan, s0: Schema)
      reads this
    {
      exists k :: (schema, completed) in Stages(plan, s0, k)
    }

    /** Begin: insert each step's journal row unless it is there. */
    method Begin(plan: MigrationPlan)
      modifies this`known
      ensures known == old(known) + set i | 0 <= i < |plan| :: plan[i].ordinal
    {
      var i := 0;
      while i < |plan|
        invariant 0 <= i <= |plan|
        invariant known == old(known) + set j | 0 <= j < i :: plan[j].ordinal
      {
        known := known + {plan[i].ordinal};
        i := i + 1;
      }
    }

    method MarkStarted(ordinal: nat)
      modifies this`started
      ensures started == if ordinal in known then old(started) + {ordinal} else old(started)
    {
      if ordinal in known {
        started := started + {ordinal};
      }
    }

    method MarkComplete(ordinal: nat)
      modifies this`completed
      ensures completed == if ordinal in known then old(completed) + {ordinal} else old(completed)
    {
      if ordinal in known {
        completed := completed + {ordinal};
      }
    }

    /** One statement: it takes effect, or fails and changes nothing. */
    method Exec(op: Ddl) returns (ok: bool)
      modifies this`schema
      ensures ok <==> Effect(op, old(schema)).Some?
      ensures schema == if ok then Effect(op, old(schema)).value else old(schema)
      ensures ok <==> !Refused(op, old(schema))
      ensures ok ==> Leaves(op, old(schema), schema)
    {
      FailsIff(op, schema);
      if !Refused(op, schema) {
        StatementIs(op, schema, Effect(op, schema).value);
      }
      match Effect(op, schema) {
        case Some(s) =>
          schema := s;
          return true;
        case None =>
          return false;
      }
    }

    /** One step: mark it started, run it, mark it complete, or crash in between. */
    method ApplyStep(plan: MigrationPlan, k: nat, budget: nat, ghost s0: Schema) returns (r: Attempt, left: nat)
      requires WellNumbered(plan) && k < |plan| && (schema, completed) in Stages(plan, s0, k)
      requires plan[k].ordinal in known
      modifies this
      ensures known == old(known)
      ensures r == Finished ==> (schema, completed) in Stages(plan, s0, k + 1) && left == budget - 3
      ensures r != Finished ==> (schema, completed) in Stages(plan, s0, k)
      ensures r == Failed ==> CleanRun(plan[..k + 1], s0) == None
      ensures budget >= 3 ==> r != Crashed
    {
      left := budget;
      if left == 0 {
        return Crashed, 0;
      }
      MarkStarted(plan[k].ordinal);
      left := left - 1;
      if left == 0 {
        return Crashed, 0;
      }
      NextStep(plan, s0, k, schema, completed);
      var ok := Exec(plan[k].op);
      if !ok {
        return Failed, left;
      }
      left := left - 1;
      if left == 0 {
        return Crashed, 0;
      }
      StageMarked(plan, s0, k, schema, completed);
      MarkComplete(plan[k].ordinal);
      return Finished, left - 1;
    }

    /** One step, unless the journal called it complete. */
    method ApplyUnlessDone(plan: MigrationPlan, i: nat, done: set<nat>, budget: nat, ghost s0: Schema, ghost k0: nat) returns (r: Attempt, left: nat)
      requires WellNumbered(plan) && i < |plan| && k0 <= |plan| && plan[i].ordinal in known
      requires plan[i].ordinal in done <==> i < k0
      requires (schema, completed) in Stages(plan, s0, if i <= k0 then k0 else i)
      modifies this
      ensures known == old(known)
      ensures r == Finished ==> (schema, completed) in Stages(plan, s0, if i + 1 <= k0 then k0 else i + 1)
      ensures r == Finished ==> left >= budget - 3
      ensures r != Finished ==> (schema, completed) in Stages(plan, s0, if i <= k0 then k0 else i)
      ensures r == Failed ==> CleanRun(plan, s0) == None
      ensures budget >= 3 ==> r != Crashed
    {
      if plan[i].ordinal in done {
        return Finished, budget;
      }
      r, left := ApplyStep(plan, i, budget, s0);
      CleanFails(plan, s0, i + 1);
    }

    /** The steps the journal does not call complete, in order. */
    method ApplyFrom(plan: MigrationPlan, done: set<nat>, budget: nat, ghost s0: Schema, ghost k0: nat) returns (r: Attempt)
      requires WellNumbered(plan) && (schema, completed) in Stages(plan, s0, k0) && done == completed
      requires forall j :: 0 <= j < |plan| ==> plan[j].ordinal in known
      modifies this
      ensures Underway(plan, s0)
      ensures r == Finished ==> Some(schema) == CleanRun(plan, s0)
      ensures r == Failed ==> CleanRun(plan, s0) == None
      ensures budget >= 3 * |plan| ==> r != Crashed
    {
      var left: nat := budget;
      StageMarks(plan, s0, k0, schema, completed);
      var i := 0;
      while i < |plan|
        invariant 0 <= i <= |plan| && known == old(known) && left >= budget - 3 * i
        invariant (schema, completed) in Stages(plan, s0, if i <= k0 then k0 else i)
      {
        r, left := ApplyUnlessDone(plan, i, done, left, s0, k0);
        if r != Finished {
          return;
        }
        i := i + 1;
      }
      StageMarks(plan, s0, |plan|, schema, completed);
      return Finished;
    }

    /** ApplyMigration: skip what the journal calls complete, apply the rest in order.
        The budget says how many journal or schema statements run before a crash. */
    method ApplyMigration(plan: MigrationPlan, budget: nat, ghost s0: Schema) returns (r: Attempt)
      requires WellNumbered(plan) && Underway(plan, s0)
      modifies this
      ensures Underway(plan, s0)
      ensures r == Finished ==> Some(schema) == CleanRun(plan, s0)
      ensures r == Failed ==> CleanRun(plan, s0) == None
      ensures budget > 3 * |plan| ==> r != Crashed
    {
      if budget == 0 {
        return Crashed;
      }
      ghost var k: nat :| (schema, completed) in Stages(plan, s0, k);
      Begin(plan);
      r := ApplyFrom(plan, completed, budget - 1, s0, k);
    }
  }

  /** Attempts cut short anywhere, then one that is not: it finishes exactly when a
      clean run would, and with the schema a clean run reaches. */
  method Resume(db: Database, plan: MigrationPlan, crashes: seq<nat>) returns (r: Attempt)
    requires WellNumbered(plan)
    requires forall i :: 0 <= i < |plan| ==> plan[i].ordinal !in db.completed
    modifies db
    ensures r == Finished <==> CleanRun(plan, old(db.schema)).Some?
    ensures r == Finished ==> Some(db.schema) == CleanRun(plan, old(db.schema))
    ensures r == Finished ==> forall c :: ColumnDone(plan, old(db.schema), db.schema, c)
    ensures r != Crashed
  {
    ghost var s0 := db.schema;
    StageZero(plan, s0, db.completed);
    var i := 0;
    while i < |crashes|
      invariant 0 <= i <= |crashes|
      invariant db.Underway(plan, s0)
    {
      var cut := db.ApplyMigration(plan, crashes[i], s0);
      i := i + 1;
    }
    r := db.ApplyMigration(plan, 3 * |plan| + 1, s0);
    if r == Finished {
      forall c {
        ColumnsDone(plan, s0, c);
      }
    }
  }
}
