/**
 * The schema a database is in once some of a plan's operations have run, written down
 * directly from the two snapshots and the set of operations done so far.
 */
module PlanStates {
  import opened Sequences
  import opened Snapshots
  import opened Schemas
  import opened Planner
  import opened PlanContents

  function ConstraintIndex(t: Table): map<string, ForeignKey> { IndexBy(ForeignKeyName, t.foreignKeys) }

  // ---- a table in both snapshots ----

  type Columns = map<string, Column>

  type Constraints = map<string, ForeignKey>

  predicate ColumnStands(t: string, b: Columns, a: Columns, done: set<ChangeOp>, c: string) {
    if c in b then DropColumn(t, b[c]) !in done else c in a && AddColumn(t, a[c]) in done
  }

  function ColumnAt(t: string, b: Columns, a: Columns, done: set<ChangeOp>, c: string): ColumnFacts
    requires c in b || c in a
  {
    if c !in b then Facts(a[c])
    else if c in a && AlterColumn(t, b[c], a[c]) in done then Facts(a[c])
    else Facts(b[c])
  }

  function ColumnsAt(t: string, b: Columns, a: Columns, done: set<ChangeOp>): map<string, ColumnFacts> {
    map c | c in b.Keys + a.Keys && ColumnStands(t, b, a, done, c) :: ColumnAt(t, b, a, done, c)
  }

  predicate Added(t: string, a: Constraints, done: set<ChangeOp>, n: string) {
    n in a && AddForeignKey(t, a[n]) in done
  }

  predicate Remains(t: string, b: Constraints, done: set<ChangeOp>, n: string) {
    n in b && DropForeignKey(t, b[n]) !in done
  }

  function ConstraintsAt(t: string, b: Constraints, a: Constraints, done: set<ChangeOp>): Constraints {
    map n | n in b.Keys + a.Keys && (Added(t, a, done, n) || Remains(t, b, done, n)) ::
      if Added(t, a, done, n) then a[n] else b[n]
  }

  function KeyAt(t: string, b: seq<string>, a: seq<string>, done: set<ChangeOp>): seq<string> {
    if AlterPrimaryKey(t, b, a) in done then a else b
  }

  function SharedAt(b: Table, a: Table, done: set<ChangeOp>): TableState {
    TableState(
      ColumnsAt(a.name, ColumnIndex(b), ColumnIndex(a), done),
      KeyAt(a.name, b.primaryKey, a.primaryKey, done),
      ConstraintsAt(a.name, ConstraintIndex(b), ConstraintIndex(a), done),
      FactsOfOptions(b.options))
  }

  // ---- a created table ----

  function CreatedConstraints(t: string, a: Constraints, mode: ForeignKeyMode, done: set<ChangeOp>): Constraints {
    map n | n in a && (mode.Inline? || Added(t, a, done, n)) :: a[n]
  }

  function CreatedAt(a: Table, mode: ForeignKeyMode, done: set<ChangeOp>): TableState {
    StateOf(a).(foreignKeys := CreatedConstraints(a.name, ConstraintIndex(a), mode, done))
  }

  // ---- the schema ----

  predicate Present(p: map<string, Table>, n: map<string, Table>, mode: ForeignKeyMode, done: set<ChangeOp>,
                    t: string) {
    if t in p then t in n || DropTable(t, p[t]) !in done
    else t in n && Creation(n[t], mode) in done
  }

  function TableAt(p: map<string, Table>, n: map<string, Table>, mode: ForeignKeyMode, done: set<ChangeOp>,
                   t: string): TableState
    requires t in p || t in n
  {
    if t in p && t in n then SharedAt(p[t], n[t], done)
    else if t in p then StateOf(p[t])
    else CreatedAt(n[t], mode, done)
  }

  function TablesAt(p: map<string, Table>, n: map<string, Table>, mode: ForeignKeyMode,
                    done: set<ChangeOp>): map<string, TableState> {
    map t | t in p.Keys + n.Keys && Present(p, n, mode, done, t) :: TableAt(p, n, mode, done, t)
  }

  function ExtensionsAt(prev: Snapshot, done: set<ChangeOp>): set<string> {
    ExtensionNames(prev.extensions) + set op | op in done && op.CreateExtension? :: op.name
  }

  function At(prev: Snapshot, next: Snapshot, mode: ForeignKeyMode, done: set<ChangeOp>): Schema {
    Schema(TablesAt(Index(prev), Index(next), mode, done), ExtensionsAt(prev, done))
  }

  /** Index keys name the indexed table. */
  ghost predicate Named(m: map<string, Table>) {
    forall t | t in m :: m[t].name == t
  }

  // ---- one more operation changes one part of a table ----

  predicate TouchesColumns(op: ChangeOp, t: string) {
    (op.AddColumn? || op.DropColumn? || op.AlterColumn?) && op.table == t
  }

  predicate TouchesConstraints(op: ChangeOp, t: string) {
    (op.AddForeignKey? || op.DropForeignKey?) && op.table == t
  }

  lemma ColumnsUnaffected(t: string, b: Columns, a: Columns, done: set<ChangeOp>, op: ChangeOp)
    requires !TouchesColumns(op, t)
    ensures ColumnsAt(t, b, a, done + {op}) == ColumnsAt(t, b, a, done)
  {
  }

  lemma ConstraintsUnaffected(t: string, b: Constraints, a: Constraints, done: set<ChangeOp>, op: ChangeOp)
    requires !TouchesConstraints(op, t)
    ensures ConstraintsAt(t, b, a, done + {op}) == ConstraintsAt(t, b, a, done)
    ensures forall mode :: CreatedConstraints(t, a, mode, done + {op}) == CreatedConstraints(t, a, mode, done)
  {
  }

  ghost predicate ColumnsNamed(m: Columns) {
    forall c | c in m :: m[c].name == c
  }

  ghost predicate ConstraintsNamed(m: Constraints) {
    forall n | n in m :: m[n].name == n
  }

  lemma AddColumnStep(t: string, b: Columns, a: Columns, done: set<ChangeOp>, c: Column)
    requires ColumnsNamed(a) && c.name in a && a[c.name] == c && c.name !in b
    ensures ColumnsAt(t, b, a, done + {AddColumn(t, c)}) == ColumnsAt(t, b, a, done)[c.name := Facts(c)]
  {
  }

  lemma DropColumnStep(t: string, b: Columns, a: Columns, done: set<ChangeOp>, c: Column)
    requires ColumnsNamed(b) && c.name in b && b[c.name] == c
    ensures ColumnsAt(t, b, a, done + {DropColumn(t, c)}) == ColumnsAt(t, b, a, done) - {c.name}
  {
  }

  lemma AlterColumnStep(t: string, b: Columns, a: Columns, done: set<ChangeOp>, before: Column, after: Column)
    requires ColumnsNamed(b) && before.name == after.name && before.name in b && b[before.name] == before
    requires after.name in a && a[after.name] == after && DropColumn(t, before) !in done
    ensures ColumnsAt(t, b, a, done + {AlterColumn(t, before, after)})
            == ColumnsAt(t, b, a, done)[after.name := Facts(after)]
  {
  }

  lemma DropConstraintStep(t: string, b: Constraints, a: Constraints, done: set<ChangeOp>, fk: ForeignKey)
    requires ConstraintsNamed(b) && fk.name in b && b[fk.name] == fk && !Added(t, a, done, fk.name)
    ensures ConstraintsAt(t, b, a, done + {DropForeignKey(t, fk)}) == ConstraintsAt(t, b, a, done) - {fk.name}
  {
  }

  lemma AddConstraintStep(t: string, b: Constraints, a: Constraints, done: set<ChangeOp>, fk: ForeignKey)
    requires ConstraintsNamed(a) && fk.name in a && a[fk.name] == fk
    ensures ConstraintsAt(t, b, a, done + {AddForeignKey(t, fk)}) == ConstraintsAt(t, b, a, done)[fk.name := fk]
    ensures CreatedConstraints(t, a, Deferred, done + {AddForeignKey(t, fk)})
            == CreatedConstraints(t, a, Deferred, done)[fk.name := fk]
  {
  }

  lemma IndexesAreNamed(t: Table)
    ensures ColumnsNamed(ColumnIndex(t)) && ConstraintsNamed(ConstraintIndex(t))
    ensures forall c | c in ColumnIndex(t) :: ColumnIndex(t)[c] in t.columns
    ensures forall n | n in ConstraintIndex(t) :: ConstraintIndex(t)[n] in t.foreignKeys
  {
    forall c | c in ColumnIndex(t)
      ensures ColumnIndex(t)[c].name == c && ColumnIndex(t)[c] in t.columns
    {
      IndexByFinds(ColumnName, t.columns, c);
    }
    forall n | n in ConstraintIndex(t)
      ensures ConstraintIndex(t)[n].name == n && ConstraintIndex(t)[n] in t.foreignKeys
    {
      IndexByFinds(ForeignKeyName, t.foreignKeys, n);
    }
  }

  // ---- one more operation changes one table ----

  lemma SharedUnaffected(b: Table, a: Table, done: set<ChangeOp>, op: ChangeOp)
    requires op.CreateExtension? || op.table != a.name
    ensures SharedAt(b, a, done + {op}) == SharedAt(b, a, done)
  {
    ColumnsUnaffected(a.name, ColumnIndex(b), ColumnIndex(a), done, op);
    ConstraintsUnaffected(a.name, ConstraintIndex(b), ConstraintIndex(a), done, op);
  }

  lemma TableUnaffected(p: map<string, Table>, n: map<string, Table>, mode: ForeignKeyMode, done: set<ChangeOp>,
                        op: ChangeOp, t: string)
    requires Named(p) && Named(n) && (t in p || t in n) && (op.CreateExtension? || op.table != t)
    ensures Present(p, n, mode, done + {op}, t) <==> Present(p, n, mode, done, t)
    ensures TableAt(p, n, mode, done + {op}, t) == TableAt(p, n, mode, done, t)
  {
    if t in p && t in n {
      SharedUnaffected(p[t], n[t], done, op);
    } else if t in n {
    }
  }

  /** All tables but the operation's own stand as before. */
  lemma OthersStay(p: map<string, Table>, n: map<string, Table>, mode: ForeignKeyMode, done: set<ChangeOp>,
                   op: ChangeOp, t: string)
    requires Named(p) && Named(n) && (op.CreateExtension? || t != op.table)
    ensures t in TablesAt(p, n, mode, done + {op}) <==> t in TablesAt(p, n, mode, done)
    ensures t in TablesAt(p, n, mode, done) ==> TablesAt(p, n, mode, done + {op})[t] == TablesAt(p, n, mode, done)[t]
  {
    if t in p || t in n {
      TableUnaffected(p, n, mode, done, op, t);
    }
  }

  /** An operation on a table replaces or removes exactly that table. */
  lemma OnlyOwnTable(p: map<string, Table>, n: map<string, Table>, mode: ForeignKeyMode, done: set<ChangeOp>,
                     op: ChangeOp)
    requires Named(p) && Named(n) && !op.CreateExtension?
    ensures var m, m' := TablesAt(p, n, mode, done), TablesAt(p, n, mode, done + {op});
            m' == if op.table in m' then m[op.table := m'[op.table]] else m - {op.table}
  {
    var m, m' := TablesAt(p, n, mode, done), TablesAt(p, n, mode, done + {op});
    forall t | t != op.table
      ensures (t in m' <==> t in m) && (t in m ==> m'[t] == m[t])
    {
      OthersStay(p, n, mode, done, op, t);
    }
  }

  lemma TablesStay(p: map<string, Table>, n: map<string, Table>, mode: ForeignKeyMode, done: set<ChangeOp>,
                   op: ChangeOp)
    requires Named(p) && Named(n) && op.CreateExtension?
    ensures TablesAt(p, n, mode, done + {op}) == TablesAt(p, n, mode, done)
  {
    var m, m' := TablesAt(p, n, mode, done), TablesAt(p, n, mode, done + {op});
    forall t
      ensures (t in m' <==> t in m) && (t in m ==> m'[t] == m[t])
    {
      OthersStay(p, n, mode, done, op, t);
    }
    assert forall t :: t in m' <==> t in m;
  }

  lemma ExtensionsStep(prev: Snapshot, done: set<ChangeOp>, op: ChangeOp)
    ensures ExtensionsAt(prev, done + {op}) == ExtensionsAt(prev, done)
            + (if op.CreateExtension? then {op.name} else {})
  {
  }

  lemma AtPut(prev: Snapshot, next: Snapshot, mode: ForeignKeyMode, done: set<ChangeOp>, op: ChangeOp)
    requires !op.CreateExtension? && (op.table in Index(prev) || op.table in Index(next))
    requires Named(Index(prev)) && Named(Index(next))
    requires Present(Index(prev), Index(next), mode, done + {op}, op.table)
    ensures At(prev, next, mode, done + {op})
         == Put(At(prev, next, mode, done), op.table, TableAt(Index(prev), Index(next), mode, done + {op}, op.table))
  {
    ExtensionsStep(prev, done, op);
    OnlyOwnTable(Index(prev), Index(next), mode, done, op);
  }
}
