/**
 * Schema snapshots and change operations, as the migration planner sees them, and the
 * comparisons the planner makes between two snapshots.
 */
module Snapshots {
  import opened Wrappers
  import opened Sequences

  datatype TypeArgument = Word(text: string) | Number(amount: real)

  datatype ColumnType =
    | Plain(spelling: string)
    | Extended(extension: string, typeName: string, args: Option<seq<TypeArgument>>)

  /** Default literals are finite scalars, so a real stands for every number that can occur. */
  datatype Literal = TextLiteral(text: string) | NumberLiteral(amount: real) | BoolLiteral(flag: bool) | NullLiteral

  datatype Default = LiteralDefault(literal: Literal) | ExpressionDefault(sql: string) | Unresolved

  datatype Column = Column(
    name: string,
    kind: ColumnType,
    nullable: bool,
    primaryKey: bool,
    length: Option<int>,
    unique: Option<bool>,
    default: Option<Default>)

  datatype Action = Cascade | Restrict | SetNull | SetDefault | NoAction

  datatype ForeignKey = ForeignKey(
    name: string,
    columns: seq<string>,
    targetTable: string,
    targetColumns: seq<string>,
    onDelete: Action,
    onUpdate: Action)

  datatype TableOptions = TableOptions(
    shardKey: Option<seq<string>>,
    sortKey: Option<seq<string>>,
    rowstore: bool)

  datatype Table = Table(
    name: string,
    columns: seq<Column>,
    primaryKey: seq<string>,
    foreignKeys: seq<ForeignKey>,
    options: Option<TableOptions>)

  datatype Extension = Extension(name: string, schema: Option<string>)

  datatype Snapshot = Snapshot(tables: seq<Table>, extensions: seq<Extension>)

  datatype ChangeOp =
    | CreateExtension(name: string, schema: Option<string>)
    | CreateTable(table: string, columns: seq<Column>, primaryKey: seq<string>, foreignKeys: seq<ForeignKey>,
                  options: Option<TableOptions>)
    | DropTable(table: string, definition: Table)
    | AddColumn(table: string, column: Column)
    | DropColumn(table: string, column: Column)
    | AlterColumn(table: string, before: Column, after: Column)
    | AlterPrimaryKey(table: string, keyBefore: seq<string>, keyAfter: seq<string>)
    | AddForeignKey(table: string, fk: ForeignKey)
    | DropForeignKey(table: string, fk: ForeignKey)

  function TableName(t: Table): string { t.name }

  function ColumnName(c: Column): string { c.name }

  function ExtensionName(e: Extension): string { e.name }

  function ForeignKeyName(fk: ForeignKey): string { fk.name }

  /**
   * The structure a foreign key is matched by. The source builds the JSON text of this
   * triple, which determines the triple and is determined by it.
   */
  function Identity(fk: ForeignKey): (seq<string>, string, seq<string>) {
    (fk.columns, fk.targetTable, fk.targetColumns)
  }

  predicate SameActions(a: ForeignKey, b: ForeignKey) {
    a.onDelete == b.onDelete && a.onUpdate == b.onUpdate
  }

  function OrEmpty<T>(list: Option<seq<T>>): seq<T> {
    if list.Some? then list.value else []
  }

  predicate SameType(previous: ColumnType, next: ColumnType) {
    if previous.Plain? || next.Plain? then previous == next
    else if previous.extension != next.extension || previous.typeName != next.typeName then false
    else
      var previousArgs, nextArgs := OrEmpty(previous.args), OrEmpty(next.args);
      |previousArgs| == |nextArgs| && forall i | 0 <= i < |previousArgs| :: previousArgs[i] == nextArgs[i]
  }

  predicate SameDefault(before: Option<Default>, after: Option<Default>) {
    match before
    case None => after.None?
    case Some(LiteralDefault(v)) => after.Some? && after.value.LiteralDefault? && v == after.value.literal
    case Some(ExpressionDefault(sql)) => after.Some? && after.value.ExpressionDefault? && sql == after.value.sql
    case Some(Unresolved) => after.Some? && after.value.Unresolved?
  }

  /** The comparison the planner alters columns by; the per-column key flag is not part of it. */
  predicate SameColumn(previous: Column, next: Column) {
    && SameType(previous.kind, next.kind)
    && previous.length == next.length
    && previous.nullable == next.nullable
    && (previous.unique == Some(true)) == (next.unique == Some(true))
    && SameDefault(previous.default, next.default)
  }

  predicate SameSequence(previous: seq<string>, next: seq<string>) {
    |previous| == |next| && forall i | 0 <= i < |previous| :: previous[i] == next[i]
  }

  predicate Rowstore(options: Option<TableOptions>) {
    options.Some? && options.value.rowstore
  }

  function ShardKey(options: Option<TableOptions>): seq<string> {
    if options.Some? then OrEmpty(options.value.shardKey) else []
  }

  function SortKey(options: Option<TableOptions>): seq<string> {
    if options.Some? then OrEmpty(options.value.sortKey) else []
  }

  predicate SameTableOptions(previous: Option<TableOptions>, next: Option<TableOptions>) {
    && Rowstore(previous) == Rowstore(next)
    && SameSequence(ShardKey(previous), ShardKey(next))
    && SameSequence(SortKey(previous), SortKey(next))
  }

  // ---- what the comparisons mean ----

  /** The same list, where none counts as empty. */
  ghost predicate AlikeLists<T>(a: Option<seq<T>>, b: Option<seq<T>>) {
    a == b || (a in {None, Some([])} && b in {None, Some([])})
  }

  ghost predicate AlikeTypes(a: ColumnType, b: ColumnType) {
    || a == b
    || (a.Extended? && b.Extended? && a.extension == b.extension && a.typeName == b.typeName
        && AlikeLists(a.args, b.args))
  }

  lemma SameTypeMeansAlike(a: ColumnType, b: ColumnType)
    ensures SameType(a, b) <==> AlikeTypes(a, b)
  {
    if a.Extended? && b.Extended? && a.args.Some? && b.args.Some? {
      assert a.args == b.args <==> a.args.value == b.args.value;
    }
  }

  /** Columns of one name that mean the same: nothing that is compared has changed. */
  ghost predicate AlikeColumns(a: Column, b: Column) {
    && AlikeTypes(a.kind, b.kind) && a.length == b.length && a.nullable == b.nullable
    && (a.unique == Some(true) <==> b.unique == Some(true)) && a.default == b.default
  }

  lemma SameColumnMeansAlike(a: Column, b: Column)
    ensures SameColumn(a, b) <==> AlikeColumns(a, b)
  {
    SameTypeMeansAlike(a.kind, b.kind);
  }

  const NO_OPTIONS := TableOptions(None, None, false)

  function OptionsOr(options: Option<TableOptions>): TableOptions {
    if options.Some? then options.value else NO_OPTIONS
  }

  /** Options that mean the same: no options are options that set nothing. */
  ghost predicate AlikeOptions(a: Option<TableOptions>, b: Option<TableOptions>) {
    var x, y := OptionsOr(a), OptionsOr(b);
    x.rowstore == y.rowstore && AlikeLists(x.shardKey, y.shardKey) && AlikeLists(x.sortKey, y.sortKey)
  }

  lemma SameKeyMeansAlike(a: Option<seq<string>>, b: Option<seq<string>>)
    ensures SameSequence(OrEmpty(a), OrEmpty(b)) <==> AlikeLists(a, b)
  {
    if a.Some? && b.Some? && SameSequence(a.value, b.value) {
      assert a.value == b.value;
    }
  }

  lemma SameTableOptionsMeansAlike(a: Option<TableOptions>, b: Option<TableOptions>)
    ensures SameTableOptions(a, b) <==> AlikeOptions(a, b)
  {
    var x, y := OptionsOr(a), OptionsOr(b);
    assert ShardKey(a) == OrEmpty(x.shardKey) && ShardKey(b) == OrEmpty(y.shardKey);
    assert SortKey(a) == OrEmpty(x.sortKey) && SortKey(b) == OrEmpty(y.sortKey);
    SameKeyMeansAlike(x.shardKey, y.shardKey);
    SameKeyMeansAlike(x.sortKey, y.sortKey);
  }

  ghost predicate ValidTable(t: Table)
  {
    && DistinctBy(ColumnName, t.columns)
    && DistinctBy(ForeignKeyName, t.foreignKeys)
    && DistinctBy(Identity, t.foreignKeys)
  }

  /**
   * What the theorems assume of a snapshot: one table, extension, column and constraint of a name, and in
   * a table one foreign key of the same columns and target, which is what the planner matches by.
   */
  ghost predicate ValidSnapshot(s: Snapshot)
  {
    && DistinctBy(TableName, s.tables)
    && DistinctBy(ExtensionName, s.extensions)
    && forall t :: t in s.tables ==> ValidTable(t)
  }
}
