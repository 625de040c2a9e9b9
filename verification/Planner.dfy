/** `diff`: the operations that take one snapshot to another, and the loops that emit them. */
module Planner {
  import opened Wrappers
  import opened Sequences
  import opened Snapshots
  import opened Schemas
  import opened Phases
  import opened TableOrder
  import opened CreationOrder

  datatype DiffError =
    | DroppingCycle(cyclic: seq<string>)
    | OptionsChange(table: string)
    | CreatingCycle(cyclic: seq<string>)

  // ---- what is emitted, list by list ----

  function NewExtensions(installed: set<string>, extensions: seq<Extension>): seq<ChangeOp>
  {
    if extensions == [] then []
    else
      var k := |extensions| - 1;
      NewExtensions(installed, extensions[..k])
      + (if extensions[k].name in installed then [] else [CreateExtension(extensions[k].name, extensions[k].schema)])
  }

  function Drop(t: Table): ChangeOp { DropTable(t.name, t) }

  function Drops(tables: seq<Table>): seq<ChangeOp>
  {
    if tables == [] then [] else Drops(tables[..|tables| - 1]) + [Drop(tables[|tables| - 1])]
  }

  function ColumnDrops(table: string, before: seq<Column>, after: set<string>): seq<ChangeOp>
  {
    if before == [] then []
    else
      var k := |before| - 1;
      ColumnDrops(table, before[..k], after) + (if before[k].name in after then [] else [DropColumn(table, before[k])])
  }

  function ColumnChange(table: string, before: map<string, Column>, c: Column): seq<ChangeOp> {
    if c.name !in before then [AddColumn(table, c)]
    else if !SameColumn(before[c.name], c) then [AlterColumn(table, before[c.name], c)]
    else []
  }

  function ColumnChanges(table: string, before: map<string, Column>, after: seq<Column>): seq<ChangeOp>
  {
    if after == [] then []
    else ColumnChanges(table, before, after[..|after| - 1]) + ColumnChange(table, before, after[|after| - 1])
  }

  function KeyChange(table: string, before: seq<string>, after: seq<string>): seq<ChangeOp> {
    if SameSequence(before, after) then [] else [AlterPrimaryKey(table, before, after)]
  }

  type ByIdentity = map<(seq<string>, string, seq<string>), ForeignKey>

  predicate Matched(fk: ForeignKey, next: seq<ForeignKey>) {
    exists f | f in next :: Identity(f) == Identity(fk)
  }

  /** A previous key is there for the first next key that matches it. */
  function ForeignKeyChange(table: string, before: ByIdentity, earlier: seq<ForeignKey>,
                            fk: ForeignKey): seq<ChangeOp> {
    if Identity(fk) !in before || Matched(fk, earlier) then [AddForeignKey(table, fk)]
    else if SameActions(before[Identity(fk)], fk) then []
    else [DropForeignKey(table, before[Identity(fk)]), AddForeignKey(table, fk)]
  }

  function ForeignKeyChanges(table: string, before: ByIdentity, next: seq<ForeignKey>): seq<ChangeOp>
  {
    if next == [] then []
    else
      var k := |next| - 1;
      ForeignKeyChanges(table, before, next[..k]) + ForeignKeyChange(table, before, next[..k], next[k])
  }

  /** The previous keys no next key matched, in their previous order. */
  function Unmatched(previous: seq<ForeignKey>, next: seq<ForeignKey>): seq<ForeignKey>
  {
    if previous == [] then []
    else
      var k := |previous| - 1;
      Unmatched(previous[..k], next) + (if Matched(previous[k], next) then [] else [previous[k]])
  }

  function ConstraintDrops(table: string, fks: seq<ForeignKey>): seq<ChangeOp>
  {
    if fks == [] then [] else ConstraintDrops(table, fks[..|fks| - 1]) + [DropForeignKey(table, fks[|fks| - 1])]
  }

  function ConstraintAdds(table: string, fks: seq<ForeignKey>): seq<ChangeOp>
  {
    if fks == [] then [] else ConstraintAdds(table, fks[..|fks| - 1]) + [AddForeignKey(table, fks[|fks| - 1])]
  }

  function ForeignKeyDiff(table: string, previous: seq<ForeignKey>, next: seq<ForeignKey>): seq<ChangeOp> {
    var before := Merged(Identity, previous);
    ForeignKeyChanges(table, IndexBy(Identity, before), next) + ConstraintDrops(table, Unmatched(before, next))
  }

  function TableChanges(before: Table, after: Table): seq<ChangeOp> {
    ColumnDrops(after.name, before.columns, IndexBy(ColumnName, after.columns).Keys)
    + ColumnChanges(after.name, IndexBy(ColumnName, before.columns), after.columns)
    + KeyChange(after.name, before.primaryKey, after.primaryKey)
    + ForeignKeyDiff(after.name, before.foreignKeys, after.foreignKeys)
  }

  function ChangesOf(previous: map<string, Table>, t: Table): seq<ChangeOp> {
    if t.name in previous then TableChanges(previous[t.name], t) else []
  }

  function SharedChanges(previous: map<string, Table>, tables: seq<Table>): seq<ChangeOp>
  {
    if tables == [] then []
    else SharedChanges(previous, tables[..|tables| - 1]) + ChangesOf(previous, tables[|tables| - 1])
  }

  function Creation(t: Table, mode: ForeignKeyMode): ChangeOp {
    CreateTable(t.name, t.columns, t.primaryKey, if mode.Inline? then t.foreignKeys else [], t.options)
  }

  function CreationOf(t: Table, mode: ForeignKeyMode): seq<ChangeOp> {
    [Creation(t, mode)] + (if mode.Inline? then [] else ConstraintAdds(t.name, t.foreignKeys))
  }

  function Creations(tables: seq<Table>, mode: ForeignKeyMode): seq<ChangeOp>
  {
    if tables == [] then []
    else Creations(tables[..|tables| - 1], mode) + CreationOf(tables[|tables| - 1], mode)
  }

  predicate OptionsDiffer(previous: map<string, Table>, t: Table) {
    t.name in previous && !SameTableOptions(previous[t.name].options, t.options)
  }

  /** The first shared table whose options differ; no operation can change them. */
  function OptionsConflict(previous: map<string, Table>, tables: seq<Table>): Option<string>
  {
    if tables == [] then None
    else match OptionsConflict(previous, tables[..|tables| - 1])
      case Some(table) => Some(table)
      case None => if OptionsDiffer(previous, tables[|tables| - 1]) then Some(tables[|tables| - 1].name) else None
  }

  function TableNames(s: Snapshot): set<string> { IndexBy(TableName, s.tables).Keys }

  function Emitted(prev: Snapshot, next: Snapshot, mode: ForeignKeyMode, dropped: seq<Table>,
                   created: seq<Table>): seq<ChangeOp> {
    NewExtensions(ExtensionNames(prev.extensions), next.extensions)
    + Drops(Reverse(dropped))
    + SharedChanges(IndexBy(TableName, prev.tables), next.tables)
    + Creations(created, mode)
  }

  ghost function Plan(prev: Snapshot, next: Snapshot, mode: ForeignKeyMode, rank: string -> real):
    Result<seq<ChangeOp>, DiffError>
  {
    match InOrder(TableNames(next), prev.tables, rank, true)
    case Failure(cyclic) => Failure(DroppingCycle(cyclic))
    case Success(dropped) =>
      match OptionsConflict(IndexBy(TableName, prev.tables), next.tables)
      case Some(table) => Failure(OptionsChange(table))
      case None =>
        match InOrder(TableNames(prev), next.tables, rank, mode.Inline?)
        case Failure(cyclic) => Failure(CreatingCycle(cyclic))
        case Success(created) => Success(OrderChanges(Emitted(prev, next, mode, dropped, created)))
  }

  // ---- foreign keys: an insertion-ordered map of the previous keys, emptied as next keys match ----

  function Deleted(entries: seq<ForeignKey>, fk: ForeignKey): seq<ForeignKey>
  {
    if entries == [] then []
    else
      var k := |entries| - 1;
      Deleted(entries[..k], fk) + (if Identity(entries[k]) == Identity(fk) then [] else [entries[k]])
  }

  lemma {:induction false} UnmatchedMembers(previous: seq<ForeignKey>, next: seq<ForeignKey>, fk: ForeignKey)
    ensures fk in Unmatched(previous, next) <==> fk in previous && !Matched(fk, next)
  {
    if previous != [] {
      var k := |previous| - 1;
      UnmatchedMembers(previous[..k], next, fk);
      assert previous == previous[..k] + [previous[k]];
    }
  }

  lemma {:induction false} UnmatchedSnoc(previous: seq<ForeignKey>, next: seq<ForeignKey>, fk: ForeignKey)
    ensures Unmatched(previous, next + [fk]) == Deleted(Unmatched(previous, next), fk)
  {
    if previous != [] {
      var k := |previous| - 1;
      UnmatchedSnoc(previous[..k], next, fk);
      assert Matched(previous[k], next + [fk])
             <==> Matched(previous[k], next) || Identity(previous[k]) == Identity(fk) by {
        assert forall f :: f in next + [fk] <==> f in next || f == fk;
      }
      var left := Unmatched(previous[..k], next);
      if Matched(previous[k], next) {
        assert Unmatched(previous, next) == left;
        assert Unmatched(previous, next + [fk]) == Unmatched(previous[..k], next + [fk]);
      } else {
        assert Unmatched(previous, next) == left + [previous[k]];
      }
    }
  }

  /** The entry under an identity, as `Map.get` finds it. */
  function Lookup(entries: seq<ForeignKey>, fk: ForeignKey): Option<ForeignKey>
  {
    if entries == [] then None
    else if Identity(entries[|entries| - 1]) == Identity(fk) then Some(entries[|entries| - 1])
    else Lookup(entries[..|entries| - 1], fk)
  }

  lemma {:induction false} LookupFinds(entries: seq<ForeignKey>, fk: ForeignKey)
    ensures Lookup(entries, fk).None? <==> forall e | e in entries :: Identity(e) != Identity(fk)
    ensures Lookup(entries, fk).Some? ==>
              Lookup(entries, fk).value in entries && Identity(Lookup(entries, fk).value) == Identity(fk)
  {
    if entries != [] {
      LookupFinds(entries[..|entries| - 1], fk);
      assert entries == entries[..|entries| - 1] + [entries[|entries| - 1]];
    }
  }

  /** A next key is looked up among what is left, and still finds what it would have found at first. */
  lemma LookupAmongUnmatched(previous: seq<ForeignKey>, next: seq<ForeignKey>, fk: ForeignKey)
    requires DistinctBy(Identity, previous)
    ensures Lookup(Unmatched(previous, next), fk)
         == if Identity(fk) !in IndexBy(Identity, previous) || Matched(fk, next) then None
            else Some(IndexBy(Identity, previous)[Identity(fk)])
  {
    var left := Unmatched(previous, next);
    LookupFinds(left, fk);
    forall e | e in previous && Identity(e) == Identity(fk)
      ensures (e in left <==> !Matched(fk, next)) && Identity(fk) in IndexBy(Identity, previous)
              && IndexBy(Identity, previous)[Identity(fk)] == e
    {
      UnmatchedMembers(previous, next, e);
      IndexByUnique(Identity, previous, e);
    }
    if Lookup(left, fk).Some? {
      UnmatchedMembers(previous, next, Lookup(left, fk).value);
    } else if Identity(fk) in IndexBy(Identity, previous) {
      IndexByFinds(Identity, previous, Identity(fk));
    }
  }

  lemma {:induction false} UnmatchedAll(previous: seq<ForeignKey>)
    ensures Unmatched(previous, []) == previous
  {
    if previous != [] {
      UnmatchedAll(previous[..|previous| - 1]);
    }
  }

  method DropConstraints(table: string, fks: seq<ForeignKey>) returns (ops: seq<ChangeOp>)
    ensures ops == ConstraintDrops(table, fks)
  {
    ops := [];
    for i := 0 to |fks|
      invariant ops == ConstraintDrops(table, fks[..i])
    {
      assert fks[..i + 1][..i] == fks[..i];
      ops := ops + [DropForeignKey(table, fks[i])];
    }
    assert fks[..|fks|] == fks;
  }

  lemma ForeignKeyStep(table: string, previous: seq<ForeignKey>, next: seq<ForeignKey>, i: nat)
    requires DistinctBy(Identity, previous) && i < |next|
    ensures Unmatched(previous, next[..i + 1]) == Deleted(Unmatched(previous, next[..i]), next[i])
    ensures ForeignKeyChanges(table, IndexBy(Identity, previous), next[..i + 1])
         == ForeignKeyChanges(table, IndexBy(Identity, previous), next[..i])
            + match Lookup(Unmatched(previous, next[..i]), next[i])
              case None => [AddForeignKey(table, next[i])]
              case Some(before) =>
                if SameActions(before, next[i]) then []
                else [DropForeignKey(table, before), AddForeignKey(table, next[i])]
  {
    LookupAmongUnmatched(previous, next[..i], next[i]);
    UnmatchedSnoc(previous, next[..i], next[i]);
    assert next[..i + 1] == next[..i] + [next[i]] && next[..i + 1][..i] == next[..i];
  }

  method DiffForeignKeys(table: string, previous: seq<ForeignKey>, next: seq<ForeignKey>) returns (ops: seq<ChangeOp>)
    ensures ops == ForeignKeyDiff(table, previous, next)
  {
    var entries := Merged(Identity, previous);
    MergedDistinct(Identity, previous);
    var unmatchedPrevious := entries;
    ops := [];
    UnmatchedAll(entries);
    for i := 0 to |next|
      invariant unmatchedPrevious == Unmatched(entries, next[..i])
      invariant ops == ForeignKeyChanges(table, IndexBy(Identity, entries), next[..i])
    {
      var foreignKey := next[i];
      ForeignKeyStep(table, entries, next, i);
      var before := Lookup(unmatchedPrevious, foreignKey);
      unmatchedPrevious := Deleted(unmatchedPrevious, foreignKey);
      if before.None? {
        ops := ops + [AddForeignKey(table, foreignKey)];
      } else if !SameActions(before.value, foreignKey) {
        ops := ops + [DropForeignKey(table, before.value), AddForeignKey(table, foreignKey)];
      }
    }
    assert next[..|next|] == next;
    var drops := DropConstraints(table, unmatchedPrevious);
    ops := ops + drops;
  }

  // ---- one shared table ----

  method DiffColumns(table: string, before: seq<Column>, after: seq<Column>) returns (ops: seq<ChangeOp>)
    ensures ops == ColumnDrops(table, before, IndexBy(ColumnName, after).Keys)
                   + ColumnChanges(table, IndexBy(ColumnName, before), after)
  {
    var beforeCols, afterCols := IndexBy(ColumnName, before), IndexBy(ColumnName, after);
    ops := [];
    for i := 0 to |before|
      invariant ops == ColumnDrops(table, before[..i], afterCols.Keys)
    {
      assert before[..i + 1][..i] == before[..i];
      if before[i].name !in afterCols {
        ops := ops + [DropColumn(table, before[i])];
      }
    }
    assert before[..|before|] == before;
    ghost var drops := ops;
    for i := 0 to |after|
      invariant ops == drops + ColumnChanges(table, beforeCols, after[..i])
    {
      assert after[..i + 1][..i] == after[..i];
      var c := after[i];
      if c.name !in beforeCols {
        ops := ops + [AddColumn(table, c)];
      } else if !SameColumn(beforeCols[c.name], c) {
        ops := ops + [AlterColumn(table, beforeCols[c.name], c)];
      }
    }
    assert after[..|after|] == after;
  }

  method DiffTable(before: Table, after: Table) returns (ops: seq<ChangeOp>)
    ensures ops == TableChanges(before, after)
  {
    ops := DiffColumns(after.name, before.columns, after.columns);
    if !SameSequence(before.primaryKey, after.primaryKey) {
      ops := ops + [AlterPrimaryKey(after.name, before.primaryKey, after.primaryKey)];
    }
    var constraints := DiffForeignKeys(after.name, before.foreignKeys, after.foreignKeys);
    ops := ops + constraints;
  }

  // ---- the whole plan ----

  lemma {:induction false} ConflictPersists(previous: map<string, Table>, tables: seq<Table>, i: nat)
    requires i <= |tables| && OptionsConflict(previous, tables[..i]).Some?
    ensures OptionsConflict(previous, tables) == OptionsConflict(previous, tables[..i])
    decreases |tables|
  {
    if i == |tables| {
      assert tables[..i] == tables;
    } else {
      assert tables[..|tables| - 1][..i] == tables[..i];
      ConflictPersists(previous, tables[..|tables| - 1], i);
    }
  }

  method DiffShared(previous: map<string, Table>, tables: seq<Table>) returns (r: Result<seq<ChangeOp>, DiffError>)
    ensures r == match OptionsConflict(previous, tables)
                 case Some(table) => Failure(OptionsChange(table))
                 case None => Success(SharedChanges(previous, tables))
  {
    var ops: seq<ChangeOp> := [];
    for i := 0 to |tables|
      invariant OptionsConflict(previous, tables[..i]).None?
      invariant ops == SharedChanges(previous, tables[..i])
    {
      var t := tables[i];
      assert tables[..i + 1][..i] == tables[..i];
      if t.name in previous {
        if !SameTableOptions(previous[t.name].options, t.options) {
          ConflictPersists(previous, tables, i + 1);
          return Failure(OptionsChange(t.name));
        }
        var changes := DiffTable(previous[t.name], t);
        ops := ops + changes;
      }
    }
    assert tables[..|tables|] == tables;
    return Success(ops);
  }

  method CreateOne(table: Table, mode: ForeignKeyMode) returns (ops: seq<ChangeOp>)
    ensures ops == CreationOf(table, mode)
  {
    ops := [Creation(table, mode)];
    if !mode.Inline? {
      for j := 0 to |table.foreignKeys|
        invariant ops == [Creation(table, mode)] + ConstraintAdds(table.name, table.foreignKeys[..j])
      {
        assert table.foreignKeys[..j + 1][..j] == table.foreignKeys[..j];
        ops := ops + [AddForeignKey(table.name, table.foreignKeys[j])];
      }
      assert table.foreignKeys[..|table.foreignKeys|] == table.foreignKeys;
    }
  }

  method Create(created: seq<Table>, mode: ForeignKeyMode) returns (ops: seq<ChangeOp>)
    ensures ops == Creations(created, mode)
  {
    ops := [];
    for i := 0 to |created|
      invariant ops == Creations(created[..i], mode)
    {
      assert created[..i + 1][..i] == created[..i];
      var made := CreateOne(created[i], mode);
      ops := ops + made;
    }
    assert created[..|created|] == created;
  }

  method AddExtensions(installed: set<string>, extensions: seq<Extension>) returns (ops: seq<ChangeOp>)
    ensures ops == NewExtensions(installed, extensions)
  {
    ops := [];
    for i := 0 to |extensions|
      invariant ops == NewExtensions(installed, extensions[..i])
    {
      assert extensions[..i + 1][..i] == extensions[..i];
      if extensions[i].name !in installed {
        ops := ops + [CreateExtension(extensions[i].name, extensions[i].schema)];
      }
    }
    assert extensions[..|extensions|] == extensions;
  }

  method DropEach(tables: seq<Table>) returns (ops: seq<ChangeOp>)
    ensures ops == Drops(tables)
  {
    ops := [];
    for i := 0 to |tables|
      invariant ops == Drops(tables[..i])
    {
      assert tables[..i + 1][..i] == tables[..i];
      ops := ops + [Drop(tables[i])];
    }
    assert tables[..|tables|] == tables;
  }

  lemma IndexedTablesAreValid(s: Snapshot)
    requires ValidSnapshot(s)
    ensures forall n | n in IndexBy(TableName, s.tables) :: ValidTable(IndexBy(TableName, s.tables)[n])
  {
    forall n | n in IndexBy(TableName, s.tables)
      ensures ValidTable(IndexBy(TableName, s.tables)[n])
    {
      IndexByFinds(TableName, s.tables, n);
    }
  }

  method Diff(prev: Snapshot, next: Snapshot, mode: ForeignKeyMode, rank: string -> real)
    returns (r: Result<seq<ChangeOp>, DiffError>)
    requires Collates(rank)
    ensures r == Plan(prev, next, mode, rank)
  {
    var prevTables, nextTables := IndexBy(TableName, prev.tables), IndexBy(TableName, next.tables);
    var extensions := AddExtensions(ExtensionNames(prev.extensions), next.extensions);
    var dropped := CreatedTablesInOrder(nextTables.Keys, prev.tables, rank, true);
    if dropped.Failure? {
      return Failure(DroppingCycle(dropped.error));
    }
    var drops := DropEach(Reverse(dropped.value));
    var changes := DiffShared(prevTables, next.tables);
    if changes.Failure? {
      return Failure(changes.error);
    }
    var created := CreatedTablesInOrder(prevTables.Keys, next.tables, rank, mode.Inline?);
    if created.Failure? {
      return Failure(CreatingCycle(created.error));
    }
    var creations := Create(created.value, mode);
    return Success(OrderChanges(extensions + drops + changes.value + creations));
  }
}
