/**
 * The planner is correct: run on the previous schema its plan is accepted step by step, passes
 * only through closed schemas, ends in the next schema, and is walked back by its down plan.
 */
module PlanCorrect {
  import opened Wrappers
  import opened Sequences
  import opened Snapshots
  import opened Schemas
  import opened Reversal
  import opened Phases
  import TableOrder
  import opened CreationOrder
  import opened OrderFacts
  import opened Planner
  import opened PlanContents
  import opened PlanStates
  import opened PlanSteps
  import opened PlanTurns

  /** The next schema, in a database that never loses an extension. */
  ghost function Target(prev: Snapshot, next: Snapshot): Schema {
    SchemaOf(next).(extensions := ExtensionNames(prev.extensions) + ExtensionNames(next.extensions))
  }

  // ---- the state before the first operation ----

  lemma SharedStart(b: Table, a: Table)
    ensures SharedAt(b, a, {}) == StateOf(b)
  {
    assert ColumnsAt(a.name, ColumnIndex(b), ColumnIndex(a), {}) == ColumnsOf(b.columns);
    assert ConstraintsAt(a.name, ConstraintIndex(b), ConstraintIndex(a), {}) == ConstraintIndex(b);
  }

  lemma StartsAtPrevious(prev: Snapshot, next: Snapshot, mode: ForeignKeyMode)
    ensures At(prev, next, mode, {}) == SchemaOf(prev)
  {
    var p, n := Index(prev), Index(next);
    forall t
      ensures t in TablesAt(p, n, mode, {}) <==> t in p
      ensures t in p ==> TablesAt(p, n, mode, {})[t] == StateOf(p[t])
    {
      if t in p && t in n {
        SharedStart(p[t], n[t]);
      }
    }
    assert ExtensionsAt(prev, {}) == ExtensionNames(prev.extensions);
  }

  // ---- the state after the last operation ----

  ghost predicate AllDone(prev: Snapshot, next: Snapshot, mode: ForeignKeyMode, done: set<ChangeOp>) {
    forall op {:trigger Planned(op, prev, next, mode)} :: op in done <==> Planned(op, prev, next, mode)
  }

  lemma DoneShared(prev: Snapshot, next: Snapshot, mode: ForeignKeyMode, done: set<ChangeOp>, op: ChangeOp)
    requires !op.CreateExtension? && !op.DropTable? && !op.CreateTable?
    requires AllDone(prev, next, mode, done) && op.table in Index(prev) && op.table in Index(next)
    ensures op in done <==> CalledFor(op, Index(prev)[op.table], Index(next)[op.table])
  {
    assert Planned(op, prev, next, mode) <==> CalledFor(op, Index(prev)[op.table], Index(next)[op.table]);
  }

  lemma ColumnFinishes(prev: Snapshot, next: Snapshot, mode: ForeignKeyMode, done: set<ChangeOp>, t: string, c: string)
    requires Ready(prev, next) && AllDone(prev, next, mode, done) && t in Index(prev) && t in Index(next)
    ensures var b, a := ColumnIndex(Index(prev)[t]), ColumnIndex(Index(next)[t]);
            && (c in b || c in a ==> (ColumnStands(t, b, a, done, c) <==> c in a))
            && (c in a ==> ColumnAt(t, b, a, done, c) == Facts(a[c]))
  {
    var b, a := ColumnIndex(Index(prev)[t]), ColumnIndex(Index(next)[t]);
    IndexesAreNamed(Index(prev)[t]);
    IndexesAreNamed(Index(next)[t]);
    if c in b {
      DoneShared(prev, next, mode, done, DropColumn(t, b[c]));
    }
    if c in a {
      DoneShared(prev, next, mode, done, AddColumn(t, a[c]));
    }
    if c in b && c in a {
      DoneShared(prev, next, mode, done, AlterColumn(t, b[c], a[c]));
      SameColumnMeansSameFacts(b[c], a[c]);
    }
  }

  lemma KeptRecord(b: Table, a: Table, n: string)
    requires ValidTable(b) && ValidTable(a) && NamesAgree(b, a) && n in ConstraintIndex(b)
    requires KeptIn(ConstraintIndex(b)[n], a.foreignKeys)
    ensures n in ConstraintIndex(a) && ConstraintIndex(a)[n] == ConstraintIndex(b)[n]
  {
    IndexesAreNamed(b);
    var fk := ConstraintIndex(b)[n];
    var f :| f in a.foreignKeys && Identity(f) == Identity(fk) && SameActions(f, fk);
    assert fk.name == f.name;
    ConstraintFound(a, f);
  }

  lemma KeptFromNext(b: Table, a: Table, n: string)
    requires ValidTable(b) && ValidTable(a) && NamesAgree(b, a) && n in ConstraintIndex(a)
    requires KeptIn(ConstraintIndex(a)[n], b.foreignKeys)
    ensures n in ConstraintIndex(b) && ConstraintIndex(b)[n] == ConstraintIndex(a)[n]
    ensures KeptIn(ConstraintIndex(b)[n], a.foreignKeys)
  {
    IndexesAreNamed(a);
    var fk := ConstraintIndex(a)[n];
    var f :| f in b.foreignKeys && Identity(f) == Identity(fk) && SameActions(f, fk);
    assert f.name == fk.name;
    ConstraintFound(b, f);
    assert KeptIn(f, a.foreignKeys);
  }

  /** What was dropped and added decides, name by name, that the next constraints are what stands. */
  lemma ConstraintOutcome(b: Table, a: Table, n: string, added: bool, remains: bool)
    requires ValidTable(b) && ValidTable(a) && NamesAgree(b, a)
    requires added <==> n in ConstraintIndex(a) && !KeptIn(ConstraintIndex(a)[n], b.foreignKeys)
    requires remains <==> n in ConstraintIndex(b) && KeptIn(ConstraintIndex(b)[n], a.foreignKeys)
    ensures added || remains <==> n in ConstraintIndex(a)
    ensures !added && n in ConstraintIndex(a) ==>
              n in ConstraintIndex(b) && ConstraintIndex(a)[n] == ConstraintIndex(b)[n]
  {
    if remains {
      KeptRecord(b, a, n);
    }
    if n in ConstraintIndex(a) && !added {
      KeptFromNext(b, a, n);
    }
  }

  lemma AddedMeans(prev: Snapshot, next: Snapshot, mode: ForeignKeyMode, done: set<ChangeOp>, t: string, n: string)
    requires AllDone(prev, next, mode, done) && t in Index(prev) && t in Index(next)
    ensures var a := ConstraintIndex(Index(next)[t]);
            Added(t, a, done, n) <==> n in a && !KeptIn(a[n], Index(prev)[t].foreignKeys)
  {
    IndexesAreNamed(Index(next)[t]);
    if n in ConstraintIndex(Index(next)[t]) {
      DoneShared(prev, next, mode, done, AddForeignKey(t, ConstraintIndex(Index(next)[t])[n]));
    }
  }

  lemma RemainsMeans(prev: Snapshot, next: Snapshot, mode: ForeignKeyMode, done: set<ChangeOp>, t: string, n: string)
    requires AllDone(prev, next, mode, done) && t in Index(prev) && t in Index(next)
    ensures var b := ConstraintIndex(Index(prev)[t]);
            Remains(t, b, done, n) <==> n in b && KeptIn(b[n], Index(next)[t].foreignKeys)
  {
    IndexesAreNamed(Index(prev)[t]);
    if n in ConstraintIndex(Index(prev)[t]) {
      DoneShared(prev, next, mode, done, DropForeignKey(t, ConstraintIndex(Index(prev)[t])[n]));
    }
  }

  lemma ConstraintFinishes(prev: Snapshot, next: Snapshot, mode: ForeignKeyMode, done: set<ChangeOp>, t: string,
                           n: string)
    requires Ready(prev, next) && AllDone(prev, next, mode, done) && t in Index(prev) && t in Index(next)
    requires NamesAgree(Index(prev)[t], Index(next)[t])
    ensures var b, a := ConstraintIndex(Index(prev)[t]), ConstraintIndex(Index(next)[t]);
            && (Added(t, a, done, n) || Remains(t, b, done, n) <==> n in a)
            && (!Added(t, a, done, n) && n in a ==> n in b && a[n] == b[n])
  {
    var b, a := Index(prev)[t], Index(next)[t];
    AddedMeans(prev, next, mode, done, t, n);
    RemainsMeans(prev, next, mode, done, t, n);
    assert SoundTable(Index(next), ExtensionNames(next.extensions), a);
    ConstraintOutcome(b, a, n, Added(t, ConstraintIndex(a), done, n), Remains(t, ConstraintIndex(b), done, n));
  }

  lemma ColumnsFinish(prev: Snapshot, next: Snapshot, mode: ForeignKeyMode, done: set<ChangeOp>, t: string)
    requires Ready(prev, next) && AllDone(prev, next, mode, done) && t in Index(prev) && t in Index(next)
    ensures ColumnsAt(t, ColumnIndex(Index(prev)[t]), ColumnIndex(Index(next)[t]), done)
            == ColumnsOf(Index(next)[t].columns)
  {
    var b, a := ColumnIndex(Index(prev)[t]), ColumnIndex(Index(next)[t]);
    forall c
      ensures c in ColumnsAt(t, b, a, done) <==> c in a
      ensures c in a ==> ColumnsAt(t, b, a, done)[c] == Facts(a[c])
    {
      ColumnFinishes(prev, next, mode, done, t, c);
    }
  }

  lemma ConstraintsFinish(prev: Snapshot, next: Snapshot, mode: ForeignKeyMode, done: set<ChangeOp>, t: string)
    requires Ready(prev, next) && AllDone(prev, next, mode, done) && t in Index(prev) && t in Index(next)
    requires NamesAgree(Index(prev)[t], Index(next)[t])
    ensures ConstraintsAt(t, ConstraintIndex(Index(prev)[t]), ConstraintIndex(Index(next)[t]), done)
            == ConstraintIndex(Index(next)[t])
  {
    var b, a := ConstraintIndex(Index(prev)[t]), ConstraintIndex(Index(next)[t]);
    forall n
      ensures n in ConstraintsAt(t, b, a, done) <==> n in a
      ensures n in a ==> ConstraintsAt(t, b, a, done)[n] == a[n]
    {
      ConstraintFinishes(prev, next, mode, done, t, n);
    }
  }

  lemma KeyFinishes(prev: Snapshot, next: Snapshot, mode: ForeignKeyMode, done: set<ChangeOp>, t: string)
    requires AllDone(prev, next, mode, done) && t in Index(prev) && t in Index(next)
    ensures KeyAt(t, Index(prev)[t].primaryKey, Index(next)[t].primaryKey, done) == Index(next)[t].primaryKey
  {
    DoneShared(prev, next, mode, done, AlterPrimaryKey(t, Index(prev)[t].primaryKey, Index(next)[t].primaryKey));
  }

  lemma SharedFinishes(prev: Snapshot, next: Snapshot, mode: ForeignKeyMode, done: set<ChangeOp>, t: string)
    requires Ready(prev, next) && AllDone(prev, next, mode, done) && t in Index(prev) && t in Index(next)
    requires NamesAgree(Index(prev)[t], Index(next)[t])
    requires SameTableOptions(Index(prev)[t].options, Index(next)[t].options)
    ensures SharedAt(Index(prev)[t], Index(next)[t], done) == StateOf(Index(next)[t])
  {
    var b, a := Index(prev)[t], Index(next)[t];
    ColumnsFinish(prev, next, mode, done, t);
    ConstraintsFinish(prev, next, mode, done, t);
    KeyFinishes(prev, next, mode, done, t);
    SameTableOptionsMeansSameFacts(b.options, a.options);
  }

  lemma CreatedConstraintPlanned(prev: Snapshot, next: Snapshot, t: string, fk: ForeignKey)
    requires t !in Index(prev) && t in Index(next) && fk in Index(next)[t].foreignKeys
    ensures Planned(AddForeignKey(t, fk), prev, next, Deferred)
  {
  }

  lemma CreatedFinishes(prev: Snapshot, next: Snapshot, mode: ForeignKeyMode, done: set<ChangeOp>, t: string)
    requires Ready(prev, next) && AllDone(prev, next, mode, done) && t !in Index(prev) && t in Index(next)
    ensures CreatedAt(Index(next)[t], mode, done) == StateOf(Index(next)[t])
  {
    var a := Index(next)[t];
    IndexesAreNamed(a);
    if mode.Deferred? {
      forall n | n in ConstraintIndex(a)
        ensures Added(t, ConstraintIndex(a), done, n)
      {
        CreatedConstraintPlanned(prev, next, t, ConstraintIndex(a)[n]);
      }
    }
    assert CreatedConstraints(t, ConstraintIndex(a), mode, done) == ConstraintIndex(a);
  }

  lemma TableFinishes(prev: Snapshot, next: Snapshot, mode: ForeignKeyMode, done: set<ChangeOp>, t: string)
    requires Ready(prev, next) && AllDone(prev, next, mode, done) && NoNameOnlyChange(prev, next)
    requires forall t | t in Index(prev) && t in Index(next) ::
               SameTableOptions(Index(prev)[t].options, Index(next)[t].options)
    ensures t in TablesAt(Index(prev), Index(next), mode, done) <==> t in Index(next)
    ensures t in Index(next) ==> TablesAt(Index(prev), Index(next), mode, done)[t] == StateOf(Index(next)[t])
  {
    var p, n := Index(prev), Index(next);
    if t in p && t in n {
      SharedFinishes(prev, next, mode, done, t);
    } else if t in p {
      assert Planned(DropTable(t, p[t]), prev, next, mode);
    } else if t in n {
      assert Planned(Creation(n[t], mode), prev, next, mode);
      CreatedFinishes(prev, next, mode, done, t);
    }
  }

  lemma ExtensionsFinish(prev: Snapshot, next: Snapshot, mode: ForeignKeyMode, done: set<ChangeOp>)
    requires AllDone(prev, next, mode, done)
    ensures ExtensionsAt(prev, done) == ExtensionNames(prev.extensions) + ExtensionNames(next.extensions)
  {
    forall e | e in next.extensions
      ensures e.name in ExtensionsAt(prev, done)
    {
      if e.name !in ExtensionNames(prev.extensions) {
        assert Planned(CreateExtension(e.name, e.schema), prev, next, mode);
      }
    }
    forall op | op in done && op.CreateExtension?
      ensures op.name in ExtensionNames(next.extensions)
    {
      assert Planned(op, prev, next, mode);
    }
  }

  lemma FinishesAtTarget(prev: Snapshot, next: Snapshot, mode: ForeignKeyMode, done: set<ChangeOp>)
    requires Ready(prev, next) && AllDone(prev, next, mode, done) && NoNameOnlyChange(prev, next)
    requires forall t | t in Index(prev) && t in Index(next) ::
               SameTableOptions(Index(prev)[t].options, Index(next)[t].options)
    ensures At(prev, next, mode, done) == Target(prev, next)
  {
    var tables := TablesAt(Index(prev), Index(next), mode, done);
    forall t
      ensures t in tables <==> t in Index(next)
      ensures t in Index(next) ==> tables[t] == StateOf(Index(next)[t])
    {
      TableFinishes(prev, next, mode, done, t);
    }
    ExtensionsFinish(prev, next, mode, done);
  }

  // ---- every operation's turn comes ----

  /** What is known of a sorted emission: each operation once, the planned ones, phases ascending. */
  ghost predicate Sorted(prev: Snapshot, next: Snapshot, mode: ForeignKeyMode, emitted: seq<ChangeOp>,
                         plan: seq<ChangeOp>) {
    && plan == OrderChanges(emitted)
    && Distinct(plan) && ByPhase(plan)
    && (forall op {:trigger op in emitted} {:trigger Planned(op, prev, next, mode)} ::
          op in emitted <==> Planned(op, prev, next, mode))
    && (forall op :: op in plan <==> op in emitted)
  }

  lemma EmissionSorted(prev: Snapshot, next: Snapshot, mode: ForeignKeyMode, rank: string -> real,
                       dropped: seq<Table>, created: seq<Table>, emitted: seq<ChangeOp>)
    requires TableOrder.Collates(rank) && ValidSnapshot(prev) && ValidSnapshot(next)
    requires Arranged(prev, next, mode, rank, dropped, created)
             && emitted == Emitted(prev, next, mode, dropped, created)
    ensures Sorted(prev, next, mode, emitted, OrderChanges(emitted))
  {
    EmittedDistinct(prev, next, mode, rank, dropped, created);
    OrderingKeepsDistinct(emitted);
    OrderingIsByPhase(emitted);
    forall op
      ensures op in emitted <==> Planned(op, prev, next, mode)
    {
      EmittedIffPlanned(prev, next, mode, rank, dropped, created, op);
    }
    forall op
      ensures op in OrderChanges(emitted) <==> op in emitted
    {
      assert op in Elements(OrderChanges(emitted)) <==> op in Elements(emitted);
    }
  }

  lemma TurnComes(prev: Snapshot, next: Snapshot, mode: ForeignKeyMode, emitted: seq<ChangeOp>, plan: seq<ChangeOp>,
                  k: nat)
    requires Sorted(prev, next, mode, emitted, plan) && k < |plan|
    ensures Turn(prev, next, mode, Elements(plan[..k]), plan[k])
  {
    var done, op := Elements(plan[..k]), plan[k];
    ElementsTake(plan, k);
    assert op in emitted;
    forall a {:trigger Planned(a, prev, next, mode)}
      ensures a in done ==> Planned(a, prev, next, mode) && Phase(a) <= Phase(op)
      ensures Planned(a, prev, next, mode) && Phase(a) < Phase(op) ==> a in done
    {
      if a in done {
        var i :| 0 <= i < k && plan[..k][i] == a;
        assert plan[i] == a;
        assert a in emitted;
      }
      if Planned(a, prev, next, mode) && Phase(a) < Phase(op) {
        assert a in emitted;
        OrderingRespects(emitted, a, op);
      }
    }
  }

  lemma DroppedTable(prev: Snapshot, next: Snapshot, rank: string -> real, dropped: seq<Table>, t: string)
    requires TableOrder.Collates(rank) && ValidSnapshot(prev) && t in Index(prev) && t !in Index(next)
    requires InOrder(TableNames(next), prev.tables, rank, true) == Success(dropped)
    ensures Index(prev)[t] in dropped && Index(prev)[t].name == t
  {
    IndexNames(prev, t);
    InOrderMembers(TableNames(next), prev.tables, rank, true, Index(prev)[t]);
  }

  lemma ChildrenHaveGone(prev: Snapshot, next: Snapshot, mode: ForeignKeyMode, rank: string -> real,
                         dropped: seq<Table>, created: seq<Table>, plan: seq<ChangeOp>, k: nat)
    requires TableOrder.Collates(rank) && Ready(prev, next) && Arranged(prev, next, mode, rank, dropped, created)
    requires Sorted(prev, next, mode, Emitted(prev, next, mode, dropped, created), plan) && k < |plan|
             && plan[k].DropTable?
    ensures ChildrenGone(prev, next, Elements(plan[..k]), plan[k].table)
  {
    var emitted := Emitted(prev, next, mode, dropped, created);
    var op := plan[k];
    assert op in emitted;
    assert Planned(op, prev, next, mode);
    forall child, fk | child in Index(prev) && child !in Index(next) && child != op.table
                       && fk in Index(prev)[child].foreignKeys && fk.targetTable == op.table
      ensures Drop(Index(prev)[child]) in Elements(plan[..k])
    {
      var c := Index(prev)[child];
      DroppedTable(prev, next, rank, dropped, child);
      DroppedTable(prev, next, rank, dropped, op.table);
      ChildrenDropFirst(prev, next, mode, rank, dropped, created, c, fk, op.definition);
      assert Planned(Drop(c), prev, next, mode);
      assert Drop(c) in emitted;
      OrderingRespects(emitted, Drop(c), op);
    }
  }

  lemma CreatedTable(prev: Snapshot, next: Snapshot, refuse: bool, rank: string -> real, created: seq<Table>, t: string)
    requires TableOrder.Collates(rank) && ValidSnapshot(next) && t in Index(next) && t !in Index(prev)
    requires InOrder(TableNames(prev), next.tables, rank, refuse) == Success(created)
    ensures Index(next)[t] in created && Index(next)[t].name == t
  {
    IndexNames(next, t);
    InOrderMembers(TableNames(prev), next.tables, rank, refuse, Index(next)[t]);
  }

  lemma ColumnsComeFirst(prev: Snapshot, next: Snapshot, mode: ForeignKeyMode, rank: string -> real,
                         dropped: seq<Table>, created: seq<Table>, plan: seq<ChangeOp>, k: nat, a: ChangeOp)
    requires TableOrder.Collates(rank) && Ready(prev, next) && Arranged(prev, next, mode, rank, dropped, created)
    requires Sorted(prev, next, mode, Emitted(prev, next, mode, dropped, created), plan) && k < |plan|
             && plan[k].CreateTable?
    requires Planned(a, prev, next, mode) && a.AddColumn?
    ensures a in Elements(plan[..k])
  {
    var emitted := Emitted(prev, next, mode, dropped, created);
    assert plan[k] in emitted && a in emitted;
    AddsBeforeCreations(prev, next, mode, rank, dropped, created, a, plan[k]);
    OrderingRespects(emitted, a, plan[k]);
  }

  lemma ParentComesFirst(prev: Snapshot, next: Snapshot, rank: string -> real,
                         dropped: seq<Table>, created: seq<Table>, plan: seq<ChangeOp>, k: nat, fk: ForeignKey)
    requires TableOrder.Collates(rank) && Ready(prev, next) && Arranged(prev, next, Inline, rank, dropped, created)
    requires Sorted(prev, next, Inline, Emitted(prev, next, Inline, dropped, created), plan) && k < |plan|
             && plan[k].CreateTable?
    requires plan[k].table in Index(next) && fk in Index(next)[plan[k].table].foreignKeys
    requires fk.targetTable in Index(next) && fk.targetTable !in Index(prev) && fk.targetTable != plan[k].table
    ensures Creation(Index(next)[fk.targetTable], Inline) in Elements(plan[..k])
  {
    var emitted := Emitted(prev, next, Inline, dropped, created);
    var op := plan[k];
    assert op in emitted;
    assert Planned(op, prev, next, Inline);
    var child, parent := Index(next)[op.table], Index(next)[fk.targetTable];
    CreatedTable(prev, next, true, rank, created, op.table);
    CreatedTable(prev, next, true, rank, created, fk.targetTable);
    TargetsCreatedFirst(prev, next, rank, dropped, created, child, fk, parent);
    assert Planned(Creation(parent, Inline), prev, next, Inline);
    assert Creation(parent, Inline) in emitted;
    OrderingRespects(emitted, Creation(parent, Inline), op);
  }

  lemma TargetsAreThere(prev: Snapshot, next: Snapshot, mode: ForeignKeyMode, rank: string -> real,
                        dropped: seq<Table>, created: seq<Table>, plan: seq<ChangeOp>, k: nat)
    requires TableOrder.Collates(rank) && Ready(prev, next) && Arranged(prev, next, mode, rank, dropped, created)
    requires Sorted(prev, next, mode, Emitted(prev, next, mode, dropped, created), plan) && k < |plan|
             && plan[k].CreateTable?
    requires plan[k].table in Index(next)
    ensures TargetsThere(prev, next, mode, Elements(plan[..k]), plan[k].table)
  {
    forall a | Planned(a, prev, next, mode) && a.AddColumn?
      ensures a in Elements(plan[..k])
    {
      ColumnsComeFirst(prev, next, mode, rank, dropped, created, plan, k, a);
    }
    if mode.Inline? {
      forall fk | fk in Index(next)[plan[k].table].foreignKeys && fk.targetTable in Index(next)
                  && fk.targetTable !in Index(prev) && fk.targetTable != plan[k].table
        ensures Creation(Index(next)[fk.targetTable], mode) in Elements(plan[..k])
      {
        ParentComesFirst(prev, next, rank, dropped, created, plan, k, fk);
      }
    }
  }

  /** Any operation of the plan, at its turn, is accepted and does its part. */
  lemma StepRuns(prev: Snapshot, next: Snapshot, mode: ForeignKeyMode, rank: string -> real,
                 dropped: seq<Table>, created: seq<Table>, plan: seq<ChangeOp>, k: nat)
    requires TableOrder.Collates(rank) && Ready(prev, next) && Arranged(prev, next, mode, rank, dropped, created)
    requires Sorted(prev, next, mode, Emitted(prev, next, mode, dropped, created), plan) && k < |plan|
    requires NoNameOnlyChange(prev, next)
    ensures Apply(plan[k], At(prev, next, mode, Elements(plan[..k])))
            == Some(At(prev, next, mode, Elements(plan[..k + 1])))
  {
    var done, op := Elements(plan[..k]), plan[k];
    ElementsTake(plan, k);
    TurnComes(prev, next, mode, Emitted(prev, next, mode, dropped, created), plan, k);
    match op
    case CreateExtension(_, _) => CreateExtensionRuns(prev, next, mode, done, op);
    case DropForeignKey(_, _) => DropForeignKeyRuns(prev, next, mode, done, op);
    case DropTable(_, _) =>
      ChildrenHaveGone(prev, next, mode, rank, dropped, created, plan, k);
      DropTableRuns(prev, next, mode, done, op);
    case CreateTable(_, _, _, _, _) =>
      TargetsAreThere(prev, next, mode, rank, dropped, created, plan, k);
      CreateTableRuns(prev, next, mode, done, op);
    case AddColumn(_, _) => AddColumnRuns(prev, next, mode, done, op);
    case AlterColumn(_, _, _) => AlterColumnRuns(prev, next, mode, done, op);
    case AlterPrimaryKey(_, _, _) => AlterKeyRuns(prev, next, mode, done, op);
    case DropColumn(_, _) => DropColumnRuns(prev, next, mode, done, op);
    case AddForeignKey(_, _) => AddForeignKeyRuns(prev, next, mode, done, op);
  }

  lemma RunPrefixSnoc(plan: seq<ChangeOp>, k: nat, s: Schema)
    requires k < |plan|
    ensures Run(plan[..k + 1], s) == match Run(plan[..k], s) case None => None case Some(s') => Apply(plan[k], s')
  {
    assert plan[..k + 1] == plan[..k] + [plan[k]];
    RunSnoc(plan[..k], plan[k], s);
  }

  lemma {:induction false} PrefixRuns(prev: Snapshot, next: Snapshot, mode: ForeignKeyMode, rank: string -> real,
                                      dropped: seq<Table>, created: seq<Table>, plan: seq<ChangeOp>, k: nat)
    requires TableOrder.Collates(rank) && Ready(prev, next) && Arranged(prev, next, mode, rank, dropped, created)
    requires Sorted(prev, next, mode, Emitted(prev, next, mode, dropped, created), plan) && k <= |plan|
    requires NoNameOnlyChange(prev, next)
    ensures Run(plan[..k], SchemaOf(prev)) == Some(At(prev, next, mode, Elements(plan[..k])))
  {
    if k == 0 {
      StartsAtPrevious(prev, next, mode);
      assert Elements(plan[..0]) == {};
    } else {
      PrefixRuns(prev, next, mode, rank, dropped, created, plan, k - 1);
      StepRuns(prev, next, mode, rank, dropped, created, plan, k - 1);
      RunPrefixSnoc(plan, k - 1, SchemaOf(prev));
    }
  }

  // ---- the theorems ----

  lemma {:induction false} NoConflict(previous: map<string, Table>, tables: seq<Table>, t: Table)
    requires OptionsConflict(previous, tables).None? && t in tables && t.name in previous
    ensures SameTableOptions(previous[t.name].options, t.options)
  {
    InSnoc(tables, t);
    if t != tables[|tables| - 1] {
      NoConflict(previous, tables[..|tables| - 1], t);
    }
  }

  /** What a successful plan is made from. */
  lemma PlanParts(prev: Snapshot, next: Snapshot, mode: ForeignKeyMode, rank: string -> real)
    returns (dropped: seq<Table>, created: seq<Table>)
    requires TableOrder.Collates(rank) && ValidSnapshot(prev) && ValidSnapshot(next)
    requires Plan(prev, next, mode, rank).Success?
    ensures Arranged(prev, next, mode, rank, dropped, created)
    ensures Plan(prev, next, mode, rank).value == OrderChanges(Emitted(prev, next, mode, dropped, created))
    ensures forall t | t in Index(prev) && t in Index(next) ::
              SameTableOptions(Index(prev)[t].options, Index(next)[t].options)
  {
    dropped := InOrder(TableNames(next), prev.tables, rank, true).value;
    created := InOrder(TableNames(prev), next.tables, rank, mode.Inline?).value;
    forall t | t in Index(prev) && t in Index(next)
      ensures SameTableOptions(Index(prev)[t].options, Index(next)[t].options)
    {
      IndexNames(next, t);
      NoConflict(Index(prev), next.tables, Index(next)[t]);
    }
  }

  lemma ReadyToRun(prev: Snapshot, next: Snapshot)
    requires ValidSnapshot(prev) && ValidSnapshot(next) && Closed(SchemaOf(next))
    ensures Ready(prev, next)
  {
    ClosedIsSound(next);
    forall t | t in Index(prev)
      ensures Index(prev)[t].name == t && ValidTable(Index(prev)[t])
    {
      IndexNames(prev, t);
    }
  }

  lemma PlanIsAllDone(prev: Snapshot, next: Snapshot, mode: ForeignKeyMode, emitted: seq<ChangeOp>, plan: seq<ChangeOp>)
    requires Sorted(prev, next, mode, emitted, plan)
    ensures AllDone(prev, next, mode, Elements(plan))
  {
    forall op {:trigger Planned(op, prev, next, mode)}
      ensures op in Elements(plan) <==> Planned(op, prev, next, mode)
    {
      assert op in plan <==> op in emitted;
    }
  }

  /** The plan takes the previous schema to the next one, every statement accepted. */
  lemma PlanReachesTarget(prev: Snapshot, next: Snapshot, mode: ForeignKeyMode, rank: string -> real)
    requires TableOrder.Collates(rank) && ValidSnapshot(prev) && ValidSnapshot(next) && Closed(SchemaOf(next))
    requires Plan(prev, next, mode, rank).Success? && NoNameOnlyChange(prev, next)
    ensures Run(Plan(prev, next, mode, rank).value, SchemaOf(prev)) == Some(Target(prev, next))
  {
    var dropped, created := PlanParts(prev, next, mode, rank);
    var emitted := Emitted(prev, next, mode, dropped, created);
    var plan := OrderChanges(emitted);
    ReadyToRun(prev, next);
    EmissionSorted(prev, next, mode, rank, dropped, created, emitted);
    PrefixRuns(prev, next, mode, rank, dropped, created, plan, |plan|);
    assert plan[..|plan|] == plan;
    PlanIsAllDone(prev, next, mode, emitted, plan);
    FinishesAtTarget(prev, next, mode, Elements(plan));
  }

  // A constraint no operation drops is still there at the end.

  lemma {:induction false} UntouchedConstraintStays(ops: seq<ChangeOp>, s: Schema, t: string, fk: ForeignKey)
    requires Run(ops, s).Some? && t in s.tables && fk.name in s.tables[t].foreignKeys
             && s.tables[t].foreignKeys[fk.name] == fk
    requires DropForeignKey(t, fk) !in ops && forall op | op in ops :: !(op.DropTable? && op.table == t)
    ensures var s' := Run(ops, s).value;
            t in s'.tables && fk.name in s'.tables[t].foreignKeys && s'.tables[t].foreignKeys[fk.name] == fk
  {
    if ops != [] {
      assert ops[0] in ops;
      UntouchedConstraintStays(ops[1..], Apply(ops[0], s).value, t, fk);
    }
  }

  lemma KeptIsNotPlannedAway(prev: Snapshot, next: Snapshot, mode: ForeignKeyMode, rank: string -> real, t: string,
                             f: ForeignKey)
    requires TableOrder.Collates(rank) && ValidSnapshot(prev) && ValidSnapshot(next)
    requires Plan(prev, next, mode, rank).Success?
    requires t in Index(prev) && t in Index(next) && KeptIn(f, Index(next)[t].foreignKeys)
    ensures DropForeignKey(t, f) !in Plan(prev, next, mode, rank).value
    ensures forall op | op in Plan(prev, next, mode, rank).value :: !(op.DropTable? && op.table == t)
  {
    var dropped, created := PlanParts(prev, next, mode, rank);
    var emitted := Emitted(prev, next, mode, dropped, created);
    EmissionSorted(prev, next, mode, rank, dropped, created, emitted);
    assert !Planned(DropForeignKey(t, f), prev, next, mode);
    forall op | op in OrderChanges(emitted)
      ensures !(op.DropTable? && op.table == t)
    {
      assert op in emitted;
      assert Planned(op, prev, next, mode);
    }
  }

  lemma OldNameNotInTarget(a: Table, f: ForeignKey, g: ForeignKey)
    requires ValidTable(a) && g in a.foreignKeys && Identity(f) == Identity(g) && f.name != g.name
    ensures f.name in ConstraintIndex(a) ==> ConstraintIndex(a)[f.name] != f
  {
    if f.name in ConstraintIndex(a) {
      IndexesAreNamed(a);
      var h := ConstraintIndex(a)[f.name];
      if h == f {
        IndexByUnique(Identity, a.foreignKeys, h);
        IndexByUnique(Identity, a.foreignKeys, g);
      }
    }
  }

  /** A change of name alone is not planned, so the old name survives and the target is missed. */
  lemma NameOnlyChangeIsMissed(prev: Snapshot, next: Snapshot, mode: ForeignKeyMode, rank: string -> real,
                               t: string, f: ForeignKey, g: ForeignKey)
    requires TableOrder.Collates(rank) && ValidSnapshot(prev) && ValidSnapshot(next)
    requires Plan(prev, next, mode, rank).Success?
    requires t in Index(prev) && t in Index(next) && f in Index(prev)[t].foreignKeys && g in Index(next)[t].foreignKeys
    requires Identity(f) == Identity(g) && SameActions(f, g) && f.name != g.name
    ensures Run(Plan(prev, next, mode, rank).value, SchemaOf(prev)) != Some(Target(prev, next))
  {
    var plan := Plan(prev, next, mode, rank).value;
    KeptIsNotPlannedAway(prev, next, mode, rank, t, f);
    IndexNames(prev, t);
    IndexNames(next, t);
    ConstraintFound(Index(prev)[t], f);
    if Run(plan, SchemaOf(prev)).Some? {
      UntouchedConstraintStays(plan, SchemaOf(prev), t, f);
      OldNameNotInTarget(Index(next)[t], f, g);
    }
  }

  const RENAMED: ForeignKey := ForeignKey("old", ["x"], "a", ["x"], NoAction, NoAction)

  const COLUMN: Column := Column("x", Plain("int"), false, true, None, None, None)

  const BEFORE_RENAME: Snapshot := Snapshot([Table("a", [COLUMN], ["x"], [RENAMED], None)], [])

  const AFTER_RENAME: Snapshot := Snapshot([Table("a", [COLUMN], ["x"], [RENAMED.(name := "new")], None)], [])

  lemma IndexOfOne(t: Table)
    ensures IndexBy(TableName, [t]) == map[t.name := t]
  {
    assert IndexBy(TableName, [t][1..]) == map[];
  }

  lemma RenameIsIndexed()
    ensures ValidSnapshot(BEFORE_RENAME) && ValidSnapshot(AFTER_RENAME)
    ensures Index(BEFORE_RENAME) == map["a" := BEFORE_RENAME.tables[0]]
            && Index(AFTER_RENAME) == map["a" := AFTER_RENAME.tables[0]]
  {
    IndexOfOne(BEFORE_RENAME.tables[0]);
    IndexOfOne(AFTER_RENAME.tables[0]);
    assert BEFORE_RENAME.tables == [BEFORE_RENAME.tables[0]] && AFTER_RENAME.tables == [AFTER_RENAME.tables[0]];
  }

  lemma {:induction false} ConflictTable(previous: map<string, Table>, tables: seq<Table>) returns (u: Table)
    requires OptionsConflict(previous, tables).Some?
    ensures u in tables && OptionsDiffer(previous, u) && OptionsConflict(previous, tables) == Some(u.name)
  {
    var k := |tables| - 1;
    if OptionsConflict(previous, tables[..k]).Some? {
      u := ConflictTable(previous, tables[..k]);
      InSnoc(tables, u);
    } else {
      u := tables[k];
    }
  }

  lemma ConflictIsReal(prev: Snapshot, next: Snapshot)
    requires ValidSnapshot(prev) && ValidSnapshot(next)
    requires OptionsConflict(Index(prev), next.tables).Some?
    ensures exists t | t in Index(prev) && t in Index(next) ::
              !SameTableOptions(Index(prev)[t].options, Index(next)[t].options)
  {
    var u := ConflictTable(Index(prev), next.tables);
    IndexHolds(next, u);
  }

  /** When the planner refuses: a cycle among dropped tables, changed options, or an inline cycle among created ones. */
  lemma RefusalsAreExact(prev: Snapshot, next: Snapshot, mode: ForeignKeyMode, rank: string -> real)
    requires TableOrder.Collates(rank) && ValidSnapshot(prev) && ValidSnapshot(next)
    ensures Plan(prev, next, mode, rank).Failure? <==>
              || (exists c :: TableOrder.Cycle(ReferenceGraph(Unlisted(TableNames(next), prev.tables)), c))
              || (exists t | t in Index(prev) && t in Index(next) ::
                  !SameTableOptions(Index(prev)[t].options, Index(next)[t].options))
              || (mode.Inline?
                  && exists c :: TableOrder.Cycle(ReferenceGraph(Unlisted(TableNames(prev), next.tables)), c))
  {
    RefusesExactlyCycles(TableNames(next), prev.tables, rank);
    RefusesExactlyCycles(TableNames(prev), next.tables, rank);
    if OptionsConflict(Index(prev), next.tables).Some? {
      ConflictIsReal(prev, next);
    }
    if Plan(prev, next, mode, rank).Success? {
      var _, _ := PlanParts(prev, next, mode, rank);
    }
  }

  /** The first table of the next snapshot whose options no longer mean the same. */
  ghost predicate FirstChanged(prev: Snapshot, next: Snapshot, t: string) {
    exists i :: 0 <= i < |next.tables| && next.tables[i].name == t && t in Index(prev)
      && !AlikeOptions(Index(prev)[t].options, next.tables[i].options)
      && forall j | 0 <= j < i && next.tables[j].name in Index(prev) ::
           AlikeOptions(Index(prev)[next.tables[j].name].options, next.tables[j].options)
  }

  lemma {:induction false} ConflictIsFirst(previous: map<string, Table>, tables: seq<Table>)
    ensures match OptionsConflict(previous, tables)
            case None =>
              forall j | 0 <= j < |tables| && tables[j].name in previous ::
                AlikeOptions(previous[tables[j].name].options, tables[j].options)
            case Some(t) =>
              exists i :: 0 <= i < |tables| && tables[i].name == t && t in previous
                && !AlikeOptions(previous[t].options, tables[i].options)
                && forall j | 0 <= j < i && tables[j].name in previous ::
                     AlikeOptions(previous[tables[j].name].options, tables[j].options)
  {
    if tables != [] {
      var k := |tables| - 1;
      ConflictIsFirst(previous, tables[..k]);
      if tables[k].name in previous {
        SameTableOptionsMeansAlike(previous[tables[k].name].options, tables[k].options);
      }
    }
  }

  /** Which refusal it is, and of what. */
  lemma RefusalsAreNamed(prev: Snapshot, next: Snapshot, mode: ForeignKeyMode, rank: string -> real)
    requires TableOrder.Collates(rank)
    ensures var gone, made := Unlisted(TableNames(next), prev.tables), Unlisted(TableNames(prev), next.tables);
            var dropping := exists c :: TableOrder.Cycle(ReferenceGraph(gone), c);
            var creating := exists c :: TableOrder.Cycle(ReferenceGraph(made), c);
            match Plan(prev, next, mode, rank)
            case Failure(DroppingCycle(names)) => dropping && AreCyclic(gone, rank, names)
            case Failure(OptionsChange(t)) => !dropping && FirstChanged(prev, next, t)
            case Failure(CreatingCycle(names)) =>
              && !dropping && (forall t :: !FirstChanged(prev, next, t))
              && mode.Inline? && creating && AreCyclic(made, rank, names)
            case Success(_) => !dropping && (forall t :: !FirstChanged(prev, next, t)) && !(mode.Inline? && creating)
  {
    if InOrder(TableNames(next), prev.tables, rank, true).Failure? {
      RefusalNamesTables(TableNames(next), prev.tables, rank);
    }
    if InOrder(TableNames(prev), next.tables, rank, true).Failure? {
      RefusalNamesTables(TableNames(prev), next.tables, rank);
    }
    hide AreCyclic, InOrder;
    RefusesExactlyCycles(TableNames(next), prev.tables, rank);
    RefusesExactlyCycles(TableNames(prev), next.tables, rank);
    ConflictIsFirst(Index(prev), next.tables);
  }

  lemma SortedMembers(ops: seq<ChangeOp>, op: ChangeOp)
    ensures op in OrderChanges(ops) <==> op in ops
  {
    OrderingPermutes(ops);
    assert op in ops <==> op in multiset(ops);
    assert op in OrderChanges(ops) <==> op in multiset(OrderChanges(ops));
  }

  lemma InPlanWhen(prev: Snapshot, next: Snapshot, mode: ForeignKeyMode, rank: string -> real, op: ChangeOp)
    requires TableOrder.Collates(rank) && ValidSnapshot(prev) && ValidSnapshot(next)
    requires Plan(prev, next, mode, rank).Success?
    ensures op in Plan(prev, next, mode, rank).value <==> Planned(op, prev, next, mode)
  {
    hide Plan, Emitted, Planned, Arranged, ValidSnapshot, OrderChanges, TableOrder.Collates;
    var dropped, created := PlanParts(prev, next, mode, rank);
    EmittedIffPlanned(prev, next, mode, rank, dropped, created, op);
    SortedMembers(Emitted(prev, next, mode, dropped, created), op);
  }

  /** A column of a shared table is altered exactly when it no longer means the same. */
  lemma AltersExactlyWhen(prev: Snapshot, next: Snapshot, mode: ForeignKeyMode, rank: string -> real, t: string,
                          before: Column, after: Column)
    requires TableOrder.Collates(rank) && ValidSnapshot(prev) && ValidSnapshot(next)
    requires Plan(prev, next, mode, rank).Success? && t in Index(prev) && t in Index(next)
    requires before in Index(prev)[t].columns && after in Index(next)[t].columns && before.name == after.name
    ensures AlterColumn(t, before, after) in Plan(prev, next, mode, rank).value <==> !AlikeColumns(before, after)
  {
    hide Plan, Index, ValidSnapshot, SameColumn, AlikeColumns;
    InPlanWhen(prev, next, mode, rank, AlterColumn(t, before, after));
    SameColumnMeansAlike(before, after);
  }

  lemma NoneUnlisted(listed: set<string>, t: Table)
    requires t.name in listed
    ensures Unlisted(listed, [t]) == [] && ReferenceGraph([]) == map[]
  {
    assert NotListed(listed, [t][1..]) == [];
  }

  lemma RenameIsAccepted(mode: ForeignKeyMode, rank: string -> real)
    requires TableOrder.Collates(rank)
    ensures Plan(BEFORE_RENAME, AFTER_RENAME, mode, rank).Success?
  {
    var prev, next := BEFORE_RENAME, AFTER_RENAME;
    RenameIsIndexed();
    NoneUnlisted(TableNames(next), prev.tables[0]);
    NoneUnlisted(TableNames(prev), next.tables[0]);
    assert prev.tables == [prev.tables[0]] && next.tables == [next.tables[0]];
    hide Plan, Unlisted, ReferenceGraph, ValidSnapshot;
    RefusalsAreExact(prev, next, mode, rank);
  }

  /** One table whose only change is the name of its foreign key: the plan is accepted and does not rename it. */
  lemma RenameIsMissed(mode: ForeignKeyMode, rank: string -> real)
    requires TableOrder.Collates(rank)
    ensures Plan(BEFORE_RENAME, AFTER_RENAME, mode, rank).Success?
    ensures Run(Plan(BEFORE_RENAME, AFTER_RENAME, mode, rank).value, SchemaOf(BEFORE_RENAME))
            != Some(Target(BEFORE_RENAME, AFTER_RENAME))
  {
    RenameIsIndexed();
    RenameIsAccepted(mode, rank);
    hide Plan, Index, Target, SchemaOf, Run, ValidSnapshot;
    NameOnlyChangeIsMissed(BEFORE_RENAME, AFTER_RENAME, mode, rank, "a", RENAMED, RENAMED.(name := "new"));
  }

  /**
   * Correctness of the planner, with its exact condition: the plan runs from the previous
   * schema to the next one if and only if no foreign key changes its name and nothing else.
   */
  lemma PlanIsCorrect(prev: Snapshot, next: Snapshot, mode: ForeignKeyMode, rank: string -> real)
    requires TableOrder.Collates(rank) && ValidSnapshot(prev) && ValidSnapshot(next) && Closed(SchemaOf(next))
    requires Plan(prev, next, mode, rank).Success?
    ensures Run(Plan(prev, next, mode, rank).value, SchemaOf(prev)) == Some(Target(prev, next))
            <==> NoNameOnlyChange(prev, next)
  {
    if NoNameOnlyChange(prev, next) {
      PlanReachesTarget(prev, next, mode, rank);
    } else {
      var t, f, g :| t in Index(prev) && t in Index(next) && f in Index(prev)[t].foreignKeys
        && g in Index(next)[t].foreignKeys
                     && Identity(f) == Identity(g) && SameActions(f, g) && f.name != g.name;
      NameOnlyChangeIsMissed(prev, next, mode, rank, t, f, g);
    }
  }

  /** Every schema the plan passes through is closed, in both foreign-key modes. */
  lemma PlanStaysClosed(prev: Snapshot, next: Snapshot, mode: ForeignKeyMode, rank: string -> real, k: nat)
    requires TableOrder.Collates(rank) && ValidSnapshot(prev) && ValidSnapshot(next)
    requires Closed(SchemaOf(prev)) && Closed(SchemaOf(next))
    requires Plan(prev, next, mode, rank).Success? && NoNameOnlyChange(prev, next)
    requires k <= |Plan(prev, next, mode, rank).value|
    ensures Run(Plan(prev, next, mode, rank).value[..k], SchemaOf(prev)).Some?
    ensures Closed(Run(Plan(prev, next, mode, rank).value[..k], SchemaOf(prev)).value)
  {
    PlanReachesTarget(prev, next, mode, rank);
    EveryIntermediateSchemaIsClosed(Plan(prev, next, mode, rank).value, SchemaOf(prev), k);
  }

  lemma PlanIsReversible(prev: Snapshot, next: Snapshot, mode: ForeignKeyMode, rank: string -> real)
    requires TableOrder.Collates(rank) && ValidSnapshot(prev) && ValidSnapshot(next)
    requires Plan(prev, next, mode, rank).Success?
    ensures forall op | op in Plan(prev, next, mode, rank).value :: Reversible(op) || op.CreateExtension?
  {
    var dropped, created := PlanParts(prev, next, mode, rank);
    var emitted := Emitted(prev, next, mode, dropped, created);
    EmissionSorted(prev, next, mode, rank, dropped, created, emitted);
    forall op | op in OrderChanges(emitted)
      ensures Reversible(op) || op.CreateExtension?
    {
      assert op in emitted;
      assert Planned(op, prev, next, mode);
      if op.DropTable? {
        IndexNames(prev, op.table);
      }
    }
  }

  /**
   * The down plan. Run any prefix of the plan, then undo it down to any earlier point: the
   * database is back in exactly the schema the plan had there, in the end the previous one.
   */
  lemma DownPlanWalksBack(prev: Snapshot, next: Snapshot, mode: ForeignKeyMode, rank: string -> real, k: nat, j: nat)
    requires TableOrder.Collates(rank) && ValidSnapshot(prev) && ValidSnapshot(next)
    requires Closed(SchemaOf(prev)) && Closed(SchemaOf(next))
    requires Plan(prev, next, mode, rank).Success? && NoNameOnlyChange(prev, next)
    requires j <= k <= |Plan(prev, next, mode, rank).value|
    requires forall op | op in Plan(prev, next, mode, rank).value :: !op.CreateExtension?
    ensures var plan := Plan(prev, next, mode, rank).value;
            && Run(plan[..k], SchemaOf(prev)).Some?
            && RunDown(plan[j..k], Run(plan[..k], SchemaOf(prev)).value, mode) == Run(plan[..j], SchemaOf(prev))
  {
    var plan := Plan(prev, next, mode, rank).value;
    PlanStaysClosed(prev, next, mode, rank, k);
    PlanIsReversible(prev, next, mode, rank);
    PrefixWalksBack(plan, SchemaOf(prev), mode, k, j);
  }
}
