/**
 * What change operations mean. A schema is the state of a database; applying an operation is
 * a partial function on schemas that is defined exactly when a database enforcing referential
 * integrity accepts the statement and the definition the operation carries is the one in force.
 */
module Schemas {
  import opened Wrappers
  import opened Sequences
  import opened Snapshots

  datatype TypeFacts =
    | PlainFacts(spelling: string)
    | ExtendedFacts(extension: string, typeName: string, args: seq<TypeArgument>)

  datatype ColumnFacts = ColumnFacts(
    kind: TypeFacts,
    nullable: bool,
    length: Option<int>,
    unique: bool,
    default: Option<Default>)

  datatype OptionFacts = OptionFacts(rowstore: bool, shardKey: seq<string>, sortKey: seq<string>)

  datatype TableState = TableState(
    columns: map<string, ColumnFacts>,
    primaryKey: seq<string>,
    foreignKeys: map<string, ForeignKey>,
    options: OptionFacts)

  datatype Schema = Schema(tables: map<string, TableState>, extensions: set<string>)

  /** How a dialect states foreign keys: inside `CREATE TABLE`, or by a later `ALTER TABLE`. */
  datatype ForeignKeyMode = Inline | Deferred

  // ---- the state a snapshot describes ----

  function KindFacts(t: ColumnType): TypeFacts {
    match t
    case Plain(spelling) => PlainFacts(spelling)
    case Extended(extension, typeName, args) => ExtendedFacts(extension, typeName, OrEmpty(args))
  }

  function Facts(c: Column): ColumnFacts {
    ColumnFacts(KindFacts(c.kind), c.nullable, c.length, c.unique == Some(true), c.default)
  }

  function FactsOfOptions(o: Option<TableOptions>): OptionFacts {
    OptionFacts(Rowstore(o), ShardKey(o), SortKey(o))
  }

  function ColumnsOf(columns: seq<Column>): map<string, ColumnFacts> {
    var m := IndexBy(ColumnName, columns);
    map n | n in m :: Facts(m[n])
  }

  function StateOf(t: Table): TableState {
    TableState(ColumnsOf(t.columns), t.primaryKey, IndexBy(ForeignKeyName, t.foreignKeys), FactsOfOptions(t.options))
  }

  function ExtensionNames(extensions: seq<Extension>): set<string> {
    set e | e in extensions :: e.name
  }

  function SchemaOf(s: Snapshot): Schema {
    var m := IndexBy(TableName, s.tables);
    Schema(map n | n in m :: StateOf(m[n]), ExtensionNames(s.extensions))
  }

  /** `SameColumn` is exactly equality of what a column means to the database. */
  lemma SameColumnMeansSameFacts(a: Column, b: Column)
    ensures SameColumn(a, b) <==> Facts(a) == Facts(b)
  {
    if a.kind.Extended? && b.kind.Extended? {
      var p, q := OrEmpty(a.kind.args), OrEmpty(b.kind.args);
      if |p| == |q| && forall i | 0 <= i < |p| :: p[i] == q[i] {
        assert p == q;
      }
    }
  }

  lemma SameTableOptionsMeansSameFacts(a: Option<TableOptions>, b: Option<TableOptions>)
    ensures SameTableOptions(a, b) <==> FactsOfOptions(a) == FactsOfOptions(b)
  {
    if SameTableOptions(a, b) {
      assert ShardKey(a) == ShardKey(b);
      assert SortKey(a) == SortKey(b);
    }
  }

  // ---- referential closure ----

  predicate Installed(t: TypeFacts, extensions: set<string>) {
    t.ExtendedFacts? ==> t.extension in extensions
  }

  predicate ForeignKeyClosed(fk: ForeignKey, t: TableState, s: Schema) {
    && (forall c | c in fk.columns :: c in t.columns)
    && fk.targetTable in s.tables
    && (forall c | c in fk.targetColumns :: c in s.tables[fk.targetTable].columns)
  }

  predicate TableClosed(t: TableState, s: Schema) {
    && (forall c | c in t.primaryKey :: c in t.columns)
    && (forall c | c in t.columns :: Installed(t.columns[c].kind, s.extensions))
    && (forall n | n in t.foreignKeys :: t.foreignKeys[n].name == n && ForeignKeyClosed(t.foreignKeys[n], t, s))
  }

  predicate Closed(s: Schema) {
    forall n | n in s.tables :: TableClosed(s.tables[n], s)
  }

  predicate References(t: TableState, target: string) {
    exists n | n in t.foreignKeys :: t.foreignKeys[n].targetTable == target
  }

  predicate ColumnInUse(table: string, column: string, s: Schema)
    requires table in s.tables
  {
    || column in s.tables[table].primaryKey
    || (exists n | n in s.tables[table].foreignKeys :: column in s.tables[table].foreignKeys[n].columns)
    || (exists m | m in s.tables :: exists n | n in s.tables[m].foreignKeys ::
          s.tables[m].foreignKeys[n].targetTable == table && column in s.tables[m].foreignKeys[n].targetColumns)
  }

  // ---- the statements ----

  function Put(s: Schema, table: string, t: TableState): Schema {
    s.(tables := s.tables[table := t])
  }

  ghost function Create(table: string, columns: seq<Column>, primaryKey: seq<string>, foreignKeys: seq<ForeignKey>,
                        options: Option<TableOptions>, s: Schema): Option<Schema> {
    var t := TableState(ColumnsOf(columns), primaryKey, IndexBy(ForeignKeyName, foreignKeys), FactsOfOptions(options));
    if table !in s.tables && DistinctBy(ColumnName, columns) && DistinctBy(ForeignKeyName, foreignKeys)
       && TableClosed(t, Put(s, table, t))
    then Some(Put(s, table, t)) else None
  }

  function Remove(table: string, s: Schema): Option<Schema> {
    if table in s.tables && forall n | n in s.tables && n != table :: !References(s.tables[n], table)
    then Some(s.(tables := s.tables - {table})) else None
  }

  function AddOneColumn(table: string, c: Column, s: Schema): Option<Schema> {
    if table in s.tables && c.name !in s.tables[table].columns && Installed(KindFacts(c.kind), s.extensions)
    then Some(Put(s, table, s.tables[table].(columns := s.tables[table].columns[c.name := Facts(c)])))
    else None
  }

  function DropOneColumn(table: string, column: string, s: Schema): Option<Schema> {
    if table in s.tables && column in s.tables[table].columns && !ColumnInUse(table, column, s)
    then Some(Put(s, table, s.tables[table].(columns := s.tables[table].columns - {column})))
    else None
  }

  function Alter(table: string, before: Column, after: Column, s: Schema): Option<Schema> {
    if table in s.tables && before.name == after.name && before.name in s.tables[table].columns
       && s.tables[table].columns[before.name] == Facts(before) && Installed(KindFacts(after.kind), s.extensions)
    then Some(Put(s, table, s.tables[table].(columns := s.tables[table].columns[after.name := Facts(after)])))
    else None
  }

  function Rekey(table: string, before: seq<string>, after: seq<string>, s: Schema): Option<Schema> {
    if table in s.tables && s.tables[table].primaryKey == before
       && forall c | c in after :: c in s.tables[table].columns
    then Some(Put(s, table, s.tables[table].(primaryKey := after)))
    else None
  }

  function AddConstraint(table: string, fk: ForeignKey, s: Schema): Option<Schema> {
    if table in s.tables && fk.name !in s.tables[table].foreignKeys && ForeignKeyClosed(fk, s.tables[table], s)
    then Some(Put(s, table, s.tables[table].(foreignKeys := s.tables[table].foreignKeys[fk.name := fk])))
    else None
  }

  function DropConstraint(table: string, name: string, s: Schema): Option<Schema> {
    if table in s.tables && name in s.tables[table].foreignKeys
    then Some(Put(s, table, s.tables[table].(foreignKeys := s.tables[table].foreignKeys - {name})))
    else None
  }

  /** The up meaning of an operation. Drops also demand that what they carry is what stands. */
  ghost function Apply(op: ChangeOp, s: Schema): Option<Schema> {
    match op
    case CreateExtension(name, _) => Some(s.(extensions := s.extensions + {name}))
    case CreateTable(table, columns, primaryKey, foreignKeys, options) =>
      Create(table, columns, primaryKey, foreignKeys, options, s)
    case DropTable(table, definition) =>
      if table in s.tables && ValidTable(definition) && s.tables[table] == StateOf(definition)
      then Remove(table, s) else None
    case AddColumn(table, column) => AddOneColumn(table, column, s)
    case DropColumn(table, column) =>
      if table in s.tables && column.name in s.tables[table].columns
         && s.tables[table].columns[column.name] == Facts(column)
      then DropOneColumn(table, column.name, s) else None
    case AlterColumn(table, before, after) => Alter(table, before, after, s)
    case AlterPrimaryKey(table, before, after) => Rekey(table, before, after, s)
    case AddForeignKey(table, fk) => AddConstraint(table, fk, s)
    case DropForeignKey(table, fk) =>
      if table in s.tables && fk.name in s.tables[table].foreignKeys && s.tables[table].foreignKeys[fk.name] == fk
      then DropConstraint(table, fk.name, s) else None
  }

  ghost function Run(ops: seq<ChangeOp>, s: Schema): Option<Schema>
  {
    if ops == [] then Some(s)
    else match Apply(ops[0], s) case None => None case Some(s') => Run(ops[1..], s')
  }

  ghost function AddConstraints(table: string, fks: seq<ForeignKey>, s: Schema): Option<Schema>
  {
    if fks == [] then Some(s)
    else match AddConstraint(table, fks[0], s) case None => None case Some(s') => AddConstraints(table, fks[1..], s')
  }

  /** The down meaning of an operation; extensions are never removed automatically. */
  ghost function Undo(op: ChangeOp, s: Schema, mode: ForeignKeyMode): Option<Schema> {
    match op
    case CreateExtension(_, _) => None
    case CreateTable(table, _, _, _, _) => Remove(table, s)
    case DropTable(table, d) =>
      if mode.Inline? then Create(table, d.columns, d.primaryKey, d.foreignKeys, d.options, s)
      else (match Create(table, d.columns, d.primaryKey, [], d.options, s)
            case None => None
            case Some(s') => AddConstraints(table, d.foreignKeys, s'))
    case AddColumn(table, column) => DropOneColumn(table, column.name, s)
    case DropColumn(table, column) => AddOneColumn(table, column, s)
    case AlterColumn(table, before, after) => Alter(table, after, before, s)
    case AlterPrimaryKey(table, before, after) => Rekey(table, after, before, s)
    case AddForeignKey(table, fk) => DropConstraint(table, fk.name, s)
    case DropForeignKey(table, fk) => AddConstraint(table, fk, s)
  }

  /** The down plan: the operations' inverses, last operation first. */
  ghost function RunDown(ops: seq<ChangeOp>, s: Schema, mode: ForeignKeyMode): Option<Schema>
  {
    if ops == [] then Some(s)
    else match Undo(ops[|ops| - 1], s, mode) case None => None case Some(s') => RunDown(ops[..|ops| - 1], s', mode)
  }

  // ---- every accepted operation keeps the schema closed ----

  lemma StillClosed(s: Schema, s': Schema, table: string, u: TableState)
    requires TableClosed(u, s) && s'.extensions == s.extensions && table in s'.tables
    requires s.tables.Keys <= s'.tables.Keys && forall m | m in s.tables && m != table :: s'.tables[m] == s.tables[m]
    requires forall n, c | n in u.foreignKeys && u.foreignKeys[n].targetTable == table
                           && c in u.foreignKeys[n].targetColumns :: c in s'.tables[table].columns
    ensures TableClosed(u, s')
  {
    forall n | n in u.foreignKeys
      ensures ForeignKeyClosed(u.foreignKeys[n], u, s')
    {
      assert ForeignKeyClosed(u.foreignKeys[n], u, s);
    }
  }

  /** Replacing one table is harmless if it is closed itself and keeps every column others refer to. */
  lemma PutKeepsClosed(s: Schema, table: string, t: TableState)
    requires Closed(s) && TableClosed(t, Put(s, table, t))
    requires forall m, n, c | m in s.tables && n in s.tables[m].foreignKeys && m != table
               && s.tables[m].foreignKeys[n].targetTable == table && c in s.tables[m].foreignKeys[n].targetColumns ::
               c in t.columns
    ensures Closed(Put(s, table, t))
  {
    var s' := Put(s, table, t);
    forall m | m in s'.tables && m != table
      ensures TableClosed(s'.tables[m], s')
    {
      assert s'.tables[m] == s.tables[m] && TableClosed(s.tables[m], s);
      StillClosed(s, s', table, s.tables[m]);
    }
  }

  lemma RemoveKeepsClosed(table: string, s: Schema)
    requires Closed(s) && Remove(table, s).Some?
    ensures Closed(Remove(table, s).value)
  {
    var s' := Remove(table, s).value;
    forall m | m in s'.tables
      ensures TableClosed(s'.tables[m], s')
    {
      assert TableClosed(s.tables[m], s) && !References(s.tables[m], table);
    }
  }

  lemma DropColumnKeepsClosed(table: string, column: string, s: Schema)
    requires Closed(s) && DropOneColumn(table, column, s).Some?
    ensures Closed(DropOneColumn(table, column, s).value)
  {
    var t := s.tables[table].(columns := s.tables[table].columns - {column});
    assert TableClosed(s.tables[table], s);
    PutKeepsClosed(s, table, t);
  }

  /** A table that only gains columns or constraints, or changes facts, leaves the others' references alone. */
  lemma GrowKeepsClosed(s: Schema, table: string, t: TableState)
    requires Closed(s) && table in s.tables && s.tables[table].columns.Keys <= t.columns.Keys
    requires TableClosed(t, Put(s, table, t))
    ensures Closed(Put(s, table, t))
  {
    forall m, n, c | m in s.tables && n in s.tables[m].foreignKeys && m != table
                     && s.tables[m].foreignKeys[n].targetTable == table && c in s.tables[m].foreignKeys[n].targetColumns
      ensures c in t.columns
    {
      assert TableClosed(s.tables[m], s);
      assert c in s.tables[table].columns.Keys;
    }
    PutKeepsClosed(s, table, t);
  }

  lemma ExtensionKeepsClosed(op: ChangeOp, s: Schema)
    requires op.CreateExtension? && Closed(s) && Apply(op, s).Some?
    ensures Closed(Apply(op, s).value)
  {
    var s' := Apply(op, s).value;
    forall m | m in s.tables
      ensures TableClosed(s.tables[m], s')
    {
      assert TableClosed(s.tables[m], s);
    }
  }

  lemma CreateTableKeepsClosed(op: ChangeOp, s: Schema)
    requires op.CreateTable? && Closed(s) && Apply(op, s).Some?
    ensures Closed(Apply(op, s).value)
  {
    forall m | m in s.tables
      ensures !References(s.tables[m], op.table)
    {
      assert TableClosed(s.tables[m], s);
    }
    PutKeepsClosed(s, op.table, Apply(op, s).value.tables[op.table]);
  }

  lemma ColumnChangeKeepsClosed(op: ChangeOp, s: Schema)
    requires (op.AddColumn? || op.AlterColumn?) && Closed(s) && Apply(op, s).Some?
    ensures Closed(Apply(op, s).value)
  {
    assert TableClosed(s.tables[op.table], s);
    GrowKeepsClosed(s, op.table, Apply(op, s).value.tables[op.table]);
  }

  lemma ConstraintChangeKeepsClosed(op: ChangeOp, s: Schema)
    requires (op.AlterPrimaryKey? || op.AddForeignKey? || op.DropForeignKey?) && Closed(s) && Apply(op, s).Some?
    ensures Closed(Apply(op, s).value)
  {
    assert TableClosed(s.tables[op.table], s);
    GrowKeepsClosed(s, op.table, Apply(op, s).value.tables[op.table]);
  }

  lemma ApplyKeepsClosed(op: ChangeOp, s: Schema)
    requires Closed(s) && Apply(op, s).Some?
    ensures Closed(Apply(op, s).value)
  {
    match op
    case CreateExtension(_, _) => ExtensionKeepsClosed(op, s);
    case CreateTable(table, _, _, _, _) => CreateTableKeepsClosed(op, s);
    case DropTable(table, _) => hide Closed; RemoveKeepsClosed(table, s);
    case DropColumn(table, column) => hide Closed; DropColumnKeepsClosed(table, column.name, s);
    case AddColumn(_, _) => ColumnChangeKeepsClosed(op, s);
    case AlterColumn(_, _, _) => ColumnChangeKeepsClosed(op, s);
    case _ => ConstraintChangeKeepsClosed(op, s);
  }

  lemma {:induction false} RunKeepsClosed(ops: seq<ChangeOp>, s: Schema)
    requires Closed(s) && Run(ops, s).Some?
    ensures Closed(Run(ops, s).value)
  {
    if ops != [] {
      ApplyKeepsClosed(ops[0], s);
      RunKeepsClosed(ops[1..], Apply(ops[0], s).value);
    }
  }

  lemma {:induction false} RunConcat(a: seq<ChangeOp>, b: seq<ChangeOp>, s: Schema)
    ensures Run(a + b, s) == match Run(a, s) case None => None case Some(s') => Run(b, s')
  {
    if a == [] {
      assert a + b == b;
    } else {
      assert (a + b)[1..] == a[1..] + b;
      if Apply(a[0], s).Some? {
        RunConcat(a[1..], b, Apply(a[0], s).value);
      }
    }
  }

  /** Every state a plan passes through is closed, not only the last. */
  lemma EveryIntermediateSchemaIsClosed(ops: seq<ChangeOp>, s: Schema, k: nat)
    requires Closed(s) && Run(ops, s).Some? && k <= |ops|
    ensures Run(ops[..k], s).Some? && Closed(Run(ops[..k], s).value)
  {
    assert ops == ops[..k] + ops[k..];
    RunConcat(ops[..k], ops[k..], s);
    RunKeepsClosed(ops[..k], s);
  }
}
