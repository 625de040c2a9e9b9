/** Exactly which operations a plan contains, each once, and in which order they were emitted. */
module PlanContents {
  import opened Wrappers
  import opened Sequences
  import opened Snapshots
  import opened Schemas
  import opened Phases
  import TableOrder
  import opened CreationOrder
  import opened OrderFacts
  import opened Planner

  function Index(s: Snapshot): map<string, Table> { IndexBy(TableName, s.tables) }

  function ColumnIndex(t: Table): map<string, Column> { IndexBy(ColumnName, t.columns) }

  /** A foreign key with the same structure and the same actions is present. */
  predicate KeptIn(fk: ForeignKey, fks: seq<ForeignKey>) {
    exists f | f in fks :: Identity(f) == Identity(fk) && SameActions(f, fk)
  }

  /** The operations two tables of the same name call for. */
  ghost predicate CalledFor(op: ChangeOp, b: Table, a: Table) {
    match op
    case AddColumn(_, c) => c in a.columns && c.name !in ColumnIndex(b)
    case DropColumn(_, c) => c in b.columns && c.name !in ColumnIndex(a)
    case AlterColumn(_, before, after) =>
      before in b.columns && after in a.columns && before.name == after.name && !SameColumn(before, after)
    case AlterPrimaryKey(_, before, after) => before == b.primaryKey && after == a.primaryKey && before != after
    case DropForeignKey(_, fk) => fk in b.foreignKeys && !KeptIn(fk, a.foreignKeys)
    case AddForeignKey(_, fk) => fk in a.foreignKeys && !KeptIn(fk, b.foreignKeys)
    case _ => false
  }

  /** The operations two snapshots call for. */
  ghost predicate Planned(op: ChangeOp, prev: Snapshot, next: Snapshot, mode: ForeignKeyMode) {
    var p, n := Index(prev), Index(next);
    match op
    case CreateExtension(name, schema) =>
      name !in ExtensionNames(prev.extensions) && Extension(name, schema) in next.extensions
    case DropTable(t, d) => t in p && t !in n && d == p[t]
    case CreateTable(t, _, _, _, _) => t in n && t !in p && op == Creation(n[t], mode)
    case _ =>
      && op.table in n
      && if op.table in p then CalledFor(op, p[op.table], n[op.table])
         else mode.Deferred? && op.AddForeignKey? && op.fk in n[op.table].foreignKeys
  }

  // ---- the lists inside one shared table ----

  lemma InSnoc<T>(s: seq<T>, x: T)
    requires s != []
    ensures x in s <==> x in s[..|s| - 1] || x == s[|s| - 1]
  {
    assert s == s[..|s| - 1] + [s[|s| - 1]];
  }

  lemma DistinctByInit<T, K>(key: T -> K, s: seq<T>)
    requires DistinctBy(key, s) && s != []
    ensures DistinctBy(key, s[..|s| - 1])
    ensures forall x | x in s[..|s| - 1] :: key(x) != key(s[|s| - 1])
  {
    forall x | x in s[..|s| - 1]
      ensures key(x) != key(s[|s| - 1])
    {
      var i :| 0 <= i < |s| - 1 && s[..|s| - 1][i] == x;
      assert key(s[i]) != key(s[|s| - 1]);
    }
  }

  lemma DistinctConcat<T>(a: seq<T>, b: seq<T>)
    requires Distinct(a) && Distinct(b) && forall x | x in a :: x !in b
    ensures Distinct(a + b)
  {
    assert forall i | 0 <= i < |a| :: a[i] in a;
    assert forall i | 0 <= i < |b| :: b[i] in b;
  }

  lemma {:induction false} ColumnDropsContain(table: string, before: seq<Column>, after: set<string>, op: ChangeOp)
    ensures op in ColumnDrops(table, before, after) <==>
              op.DropColumn? && op.table == table && op.column in before && op.column.name !in after
  {
    if before != [] {
      ColumnDropsContain(table, before[..|before| - 1], after, op);
      if op.DropColumn? { InSnoc(before, op.column); }
    }
  }

  lemma {:induction false} ColumnDropsDistinct(table: string, before: seq<Column>, after: set<string>)
    requires DistinctBy(ColumnName, before)
    ensures Distinct(ColumnDrops(table, before, after))
  {
    if before != [] {
      var k := |before| - 1;
      DistinctByInit(ColumnName, before);
      ColumnDropsDistinct(table, before[..k], after);
      ColumnDropsContain(table, before[..k], after, DropColumn(table, before[k]));
    }
  }

  lemma {:induction false} ColumnChangesContain(table: string, before: seq<Column>, after: seq<Column>, op: ChangeOp)
    requires DistinctBy(ColumnName, before)
    ensures op in ColumnChanges(table, IndexBy(ColumnName, before), after) <==>
              || (op.AddColumn? && op.table == table && op.column in after
                && op.column.name !in IndexBy(ColumnName, before))
              || (op.AlterColumn? && op.table == table && op.before in before && op.after in after
                  && op.before.name == op.after.name && !SameColumn(op.before, op.after))
  {
    if after != [] {
      var k := |after| - 1;
      ColumnChangesContain(table, before, after[..k], op);
      if op.AddColumn? {
        InSnoc(after, op.column);
      }
      if op.AlterColumn? {
        InSnoc(after, op.after);
        if op.before in before { IndexByUnique(ColumnName, before, op.before); }
        if after[k].name in IndexBy(ColumnName, before) { IndexByFinds(ColumnName, before, after[k].name); }
      }
    }
  }

  lemma {:induction false} ColumnChangesDistinct(table: string, before: seq<Column>, after: seq<Column>)
    requires DistinctBy(ColumnName, before) && DistinctBy(ColumnName, after)
    ensures Distinct(ColumnChanges(table, IndexBy(ColumnName, before), after))
  {
    if after != [] {
      var k := |after| - 1;
      DistinctByInit(ColumnName, after);
      ColumnChangesDistinct(table, before, after[..k]);
      var more := ColumnChange(table, IndexBy(ColumnName, before), after[k]);
      if more != [] {
        ColumnChangesContain(table, before, after[..k], more[0]);
      }
    }
  }

  lemma ForeignKeyChangeContains(table: string, previous: seq<ForeignKey>, earlier: seq<ForeignKey>, fk: ForeignKey,
                                 op: ChangeOp)
    requires DistinctBy(Identity, previous) && DistinctBy(Identity, earlier + [fk])
    ensures op in ForeignKeyChange(table, IndexBy(Identity, previous), earlier, fk) <==>
              || (op == AddForeignKey(table, fk) && !KeptIn(fk, previous))
              || (op.DropForeignKey? && op.table == table && op.fk in previous
                  && Identity(fk) == Identity(op.fk) && !SameActions(op.fk, fk))
  {
    assert !Matched(fk, earlier) by {
      var all := earlier + [fk];
      forall f | f in earlier
        ensures Identity(f) != Identity(fk)
      {
        var i :| 0 <= i < |earlier| && earlier[i] == f;
        assert all[i] == f && all[|earlier|] == fk;
      }
    }
    forall f | f in previous
      ensures Identity(f) in IndexBy(Identity, previous) && IndexBy(Identity, previous)[Identity(f)] == f
    {
      IndexByUnique(Identity, previous, f);
    }
    if Identity(fk) in IndexBy(Identity, previous) {
      IndexByFinds(Identity, previous, Identity(fk));
    }
  }

  lemma {:induction false} ForeignKeyChangesContain(table: string, previous: seq<ForeignKey>, next: seq<ForeignKey>,
                                                    op: ChangeOp)
    requires DistinctBy(Identity, previous) && DistinctBy(Identity, next)
    ensures op in ForeignKeyChanges(table, IndexBy(Identity, previous), next) <==>
              || (op.AddForeignKey? && op.table == table && op.fk in next && !KeptIn(op.fk, previous))
              || (op.DropForeignKey? && op.table == table && op.fk in previous
                  && exists f | f in next :: Identity(f) == Identity(op.fk) && !SameActions(op.fk, f))
  {
    if next != [] {
      var k := |next| - 1;
      DistinctByInit(Identity, next);
      assert next == next[..k] + [next[k]];
      ForeignKeyChangesContain(table, previous, next[..k], op);
      ForeignKeyChangeContains(table, previous, next[..k], next[k], op);
      if op.AddForeignKey? {
        InSnoc(next, op.fk);
      }
      if op.DropForeignKey? && op.table == table && op.fk in previous {
        forall f ensures f in next <==> f in next[..k] || f == next[k] { InSnoc(next, f); }
      }
    }
  }

  lemma {:induction false} ForeignKeyChangesDistinct(table: string, previous: seq<ForeignKey>, next: seq<ForeignKey>)
    requires DistinctBy(Identity, previous) && DistinctBy(Identity, next)
    ensures Distinct(ForeignKeyChanges(table, IndexBy(Identity, previous), next))
  {
    if next != [] {
      var k := |next| - 1;
      DistinctByInit(Identity, next);
      ForeignKeyChangesDistinct(table, previous, next[..k]);
      assert next == next[..k] + [next[k]];
      var more := ForeignKeyChange(table, IndexBy(Identity, previous), next[..k], next[k]);
      forall op | op in more
        ensures op !in ForeignKeyChanges(table, IndexBy(Identity, previous), next[..k])
      {
        ForeignKeyChangesContain(table, previous, next[..k], op);
        ForeignKeyChangeContains(table, previous, next[..k], next[k], op);
      }
      DistinctConcat(ForeignKeyChanges(table, IndexBy(Identity, previous), next[..k]), more);
    }
  }

  lemma {:induction false} ConstraintDropsContain(table: string, fks: seq<ForeignKey>, op: ChangeOp)
    ensures op in ConstraintDrops(table, fks) <==> op.DropForeignKey? && op.table == table && op.fk in fks
  {
    if fks != [] {
      ConstraintDropsContain(table, fks[..|fks| - 1], op);
      if op.DropForeignKey? { InSnoc(fks, op.fk); }
    }
  }

  lemma {:induction false} ConstraintAddsContain(table: string, fks: seq<ForeignKey>, op: ChangeOp)
    ensures op in ConstraintAdds(table, fks) <==> op.AddForeignKey? && op.table == table && op.fk in fks
  {
    if fks != [] {
      ConstraintAddsContain(table, fks[..|fks| - 1], op);
      if op.AddForeignKey? { InSnoc(fks, op.fk); }
    }
  }

  lemma {:induction false} ConstraintDropsDistinct(table: string, fks: seq<ForeignKey>)
    requires DistinctBy(Identity, fks)
    ensures Distinct(ConstraintDrops(table, fks))
  {
    if fks != [] {
      var k := |fks| - 1;
      DistinctByInit(Identity, fks);
      ConstraintDropsDistinct(table, fks[..k]);
      ConstraintDropsContain(table, fks[..k], DropForeignKey(table, fks[k]));
    }
  }

  lemma {:induction false} ConstraintAddsDistinct(table: string, fks: seq<ForeignKey>)
    requires DistinctBy(Identity, fks)
    ensures Distinct(ConstraintAdds(table, fks))
  {
    if fks != [] {
      var k := |fks| - 1;
      DistinctByInit(Identity, fks);
      ConstraintAddsDistinct(table, fks[..k]);
      ConstraintAddsContain(table, fks[..k], AddForeignKey(table, fks[k]));
    }
  }

  lemma {:induction false} UnmatchedDistinct(previous: seq<ForeignKey>, next: seq<ForeignKey>)
    requires DistinctBy(Identity, previous)
    ensures DistinctBy(Identity, Unmatched(previous, next))
  {
    if previous != [] {
      var k := |previous| - 1;
      DistinctByInit(Identity, previous);
      UnmatchedDistinct(previous[..k], next);
      var left := Unmatched(previous[..k], next);
      forall i | 0 <= i < |left|
        ensures Identity(left[i]) != Identity(previous[k])
      {
        UnmatchedMembers(previous[..k], next, left[i]);
      }
    }
  }

  lemma ForeignKeyDiffContains(table: string, previous: seq<ForeignKey>, next: seq<ForeignKey>, op: ChangeOp)
    requires DistinctBy(Identity, previous) && DistinctBy(Identity, next)
    ensures op in ForeignKeyDiff(table, previous, next) <==>
              || (op.AddForeignKey? && op.table == table && op.fk in next && !KeptIn(op.fk, previous))
              || (op.DropForeignKey? && op.table == table && op.fk in previous && !KeptIn(op.fk, next))
  {
    MergedIsItself(Identity, previous);
    ForeignKeyChangesContain(table, previous, next, op);
    ConstraintDropsContain(table, Unmatched(previous, next), op);
    if op.DropForeignKey? {
      UnmatchedMembers(previous, next, op.fk);
    }
  }

  lemma ForeignKeyDiffDistinct(table: string, previous: seq<ForeignKey>, next: seq<ForeignKey>)
    requires DistinctBy(Identity, previous) && DistinctBy(Identity, next)
    ensures Distinct(ForeignKeyDiff(table, previous, next))
  {
    MergedIsItself(Identity, previous);
    var changes := ForeignKeyChanges(table, IndexBy(Identity, previous), next);
    var drops := ConstraintDrops(table, Unmatched(previous, next));
    ForeignKeyChangesDistinct(table, previous, next);
    UnmatchedDistinct(previous, next);
    ConstraintDropsDistinct(table, Unmatched(previous, next));
    forall op | op in changes
      ensures op !in drops
    {
      ForeignKeyChangesContain(table, previous, next, op);
      ConstraintDropsContain(table, Unmatched(previous, next), op);
      if op.DropForeignKey? {
        UnmatchedMembers(previous, next, op.fk);
      }
    }
    DistinctConcat(changes, drops);
  }

  lemma TableChangesContain(b: Table, a: Table, op: ChangeOp)
    requires ValidTable(b) && ValidTable(a)
    ensures op in TableChanges(b, a) <==> !op.CreateExtension? && op.table == a.name && CalledFor(op, b, a)
  {
    hide ColumnDrops, ColumnChanges, ForeignKeyDiff;
    ColumnDropsContain(a.name, b.columns, ColumnIndex(a).Keys, op);
    ColumnChangesContain(a.name, b.columns, a.columns, op);
    ForeignKeyDiffContains(a.name, b.foreignKeys, a.foreignKeys, op);
    assert SameSequence(b.primaryKey, a.primaryKey) <==> b.primaryKey == a.primaryKey;
  }

  lemma TableChangesDistinct(b: Table, a: Table)
    requires ValidTable(b) && ValidTable(a)
    ensures Distinct(TableChanges(b, a))
  {
    var drops := ColumnDrops(a.name, b.columns, ColumnIndex(a).Keys);
    var changes := ColumnChanges(a.name, ColumnIndex(b), a.columns);
    var key := KeyChange(a.name, b.primaryKey, a.primaryKey);
    var constraints := ForeignKeyDiff(a.name, b.foreignKeys, a.foreignKeys);
    ColumnDropsDistinct(a.name, b.columns, ColumnIndex(a).Keys);
    ColumnChangesDistinct(a.name, b.columns, a.columns);
    ForeignKeyDiffDistinct(a.name, b.foreignKeys, a.foreignKeys);
    forall op
      ensures op in drops ==> op.DropColumn?
      ensures op in changes ==> op.AddColumn? || op.AlterColumn?
      ensures op in key ==> op.AlterPrimaryKey?
      ensures op in constraints ==> op.DropForeignKey? || op.AddForeignKey?
    {
      ColumnDropsContain(a.name, b.columns, ColumnIndex(a).Keys, op);
      ColumnChangesContain(a.name, b.columns, a.columns, op);
      ForeignKeyDiffContains(a.name, b.foreignKeys, a.foreignKeys, op);
    }
    DistinctConcat(drops, changes);
    DistinctConcat(drops + changes, key);
    DistinctConcat(drops + changes + key, constraints);
  }

  // ---- the lists over tables ----

  lemma {:induction false} ExtensionsContain(installed: set<string>, extensions: seq<Extension>, op: ChangeOp)
    ensures op in NewExtensions(installed, extensions) <==>
              op.CreateExtension? && op.name !in installed && Extension(op.name, op.schema) in extensions
  {
    if extensions != [] {
      ExtensionsContain(installed, extensions[..|extensions| - 1], op);
      if op.CreateExtension? { InSnoc(extensions, Extension(op.name, op.schema)); }
    }
  }

  lemma {:induction false} ExtensionsDistinct(installed: set<string>, extensions: seq<Extension>)
    requires DistinctBy(ExtensionName, extensions)
    ensures Distinct(NewExtensions(installed, extensions))
  {
    if extensions != [] {
      var k := |extensions| - 1;
      DistinctByInit(ExtensionName, extensions);
      ExtensionsDistinct(installed, extensions[..k]);
      ExtensionsContain(installed, extensions[..k], CreateExtension(extensions[k].name, extensions[k].schema));
    }
  }

  lemma {:induction false} DropsAre(tables: seq<Table>)
    ensures |Drops(tables)| == |tables|
    ensures forall i | 0 <= i < |tables| :: Drops(tables)[i] == Drop(tables[i])
  {
    if tables != [] {
      DropsAre(tables[..|tables| - 1]);
    }
  }

  lemma {:induction false} SharedContain(p: map<string, Table>, tables: seq<Table>, op: ChangeOp)
    requires (forall t | t in tables :: ValidTable(t)) && forall n | n in p :: ValidTable(p[n])
    ensures op in SharedChanges(p, tables) <==>
              !op.CreateExtension? && exists t | t in tables ::
                  t.name == op.table && t.name in p && CalledFor(op, p[t.name], t)
  {
    if tables != [] {
      var k := |tables| - 1;
      SharedContain(p, tables[..k], op);
      assert forall t :: t in tables <==> t in tables[..k] || t == tables[k] by {
        forall t ensures t in tables <==> t in tables[..k] || t == tables[k] { InSnoc(tables, t); }
      }
      if tables[k].name in p {
        TableChangesContain(p[tables[k].name], tables[k], op);
      }
    }
  }

  lemma {:induction false} SharedDistinct(p: map<string, Table>, tables: seq<Table>)
    requires DistinctBy(TableName, tables)
    requires (forall t | t in tables :: ValidTable(t)) && forall n | n in p :: ValidTable(p[n]) && p[n].name == n
    ensures Distinct(SharedChanges(p, tables))
  {
    if tables != [] {
      var k := |tables| - 1;
      DistinctByInit(TableName, tables);
      SharedDistinct(p, tables[..k]);
      if tables[k].name in p {
        var b := p[tables[k].name];
        TableChangesDistinct(b, tables[k]);
        forall op | op in SharedChanges(p, tables[..k])
          ensures op !in TableChanges(b, tables[k])
        {
          SharedContain(p, tables[..k], op);
          TableChangesContain(b, tables[k], op);
        }
        DistinctConcat(SharedChanges(p, tables[..k]), TableChanges(b, tables[k]));
      }
    }
  }

  lemma {:induction false} CreationsContain(tables: seq<Table>, mode: ForeignKeyMode, op: ChangeOp)
    ensures op in Creations(tables, mode) <==>
              || (exists t | t in tables :: op == Creation(t, mode))
              || (mode.Deferred? && op.AddForeignKey? && exists t | t in tables ::
                  op.table == t.name && op.fk in t.foreignKeys)
  {
    if tables != [] {
      var k := |tables| - 1;
      CreationsContain(tables[..k], mode, op);
      forall t ensures t in tables <==> t in tables[..k] || t == tables[k] { InSnoc(tables, t); }
      ConstraintAddsContain(tables[k].name, tables[k].foreignKeys, op);
    }
  }

  lemma {:induction false} CreationsDistinct(tables: seq<Table>, mode: ForeignKeyMode)
    requires DistinctBy(TableName, tables) && forall t | t in tables :: ValidTable(t)
    ensures Distinct(Creations(tables, mode))
  {
    if tables != [] {
      var k := |tables| - 1;
      DistinctByInit(TableName, tables);
      CreationsDistinct(tables[..k], mode);
      assert tables[k] in tables;
      ConstraintAddsDistinct(tables[k].name, tables[k].foreignKeys);
      var adds := if mode.Inline? then [] else ConstraintAdds(tables[k].name, tables[k].foreignKeys);
      ConstraintAddsContain(tables[k].name, tables[k].foreignKeys, Creation(tables[k], mode));
      DistinctConcat([Creation(tables[k], mode)], adds);
      forall op | op in CreationOf(tables[k], mode)
        ensures op !in Creations(tables[..k], mode)
      {
        CreationsContain(tables[..k], mode, op);
        ConstraintAddsContain(tables[k].name, tables[k].foreignKeys, op);
      }
      DistinctConcat(Creations(tables[..k], mode), CreationOf(tables[k], mode));
    }
  }

  // ---- the whole emission ----

  lemma IndexHolds(s: Snapshot, t: Table)
    requires ValidSnapshot(s)
    ensures t in s.tables <==> t.name in Index(s) && Index(s)[t.name] == t
  {
    if t in s.tables {
      IndexByUnique(TableName, s.tables, t);
    } else if t.name in Index(s) {
      IndexByFinds(TableName, s.tables, t.name);
    }
  }

  lemma IndexNames(s: Snapshot, n: string)
    requires ValidSnapshot(s) && n in Index(s)
    ensures Index(s)[n] in s.tables && Index(s)[n].name == n && ValidTable(Index(s)[n])
  {
    IndexByFinds(TableName, s.tables, n);
  }

  /** The table orders a plan is emitted with. */
  ghost predicate Arranged(prev: Snapshot, next: Snapshot, mode: ForeignKeyMode, rank: string -> real,
                           dropped: seq<Table>, created: seq<Table>)
  {
    && InOrder(TableNames(next), prev.tables, rank, true) == Success(dropped)
    && InOrder(TableNames(prev), next.tables, rank, mode.Inline?) == Success(created)
  }

  lemma InReverse<T>(s: seq<T>, x: T)
    ensures x in Reverse(s) <==> x in s
  {
    var r := Reverse(s);
    if x in r {
      var i :| 0 <= i < |r| && r[i] == x;
      assert s[|s| - 1 - i] == x;
    }
    if x in s {
      var i :| 0 <= i < |s| && s[i] == x;
      assert r[|s| - 1 - i] == x;
    }
  }

  lemma DropsContain(prev: Snapshot, next: Snapshot, rank: string -> real, dropped: seq<Table>, op: ChangeOp)
    requires TableOrder.Collates(rank) && ValidSnapshot(prev)
    requires InOrder(TableNames(next), prev.tables, rank, true) == Success(dropped)
    ensures op in Drops(Reverse(dropped)) <==>
              op.DropTable? && op.table in Index(prev) && op.table !in Index(next)
                && op.definition == Index(prev)[op.table]
  {
    var reversed := Reverse(dropped);
    DropsAre(reversed);
    if op in Drops(reversed) {
      var i :| 0 <= i < |reversed| && Drops(reversed)[i] == op;
      assert reversed[i] in reversed;
      InReverse(dropped, reversed[i]);
      InOrderMembers(TableNames(next), prev.tables, rank, true, reversed[i]);
      IndexHolds(prev, reversed[i]);
    }
    if op.DropTable? && op.table in Index(prev) && op.table !in Index(next) && op.definition == Index(prev)[op.table] {
      IndexNames(prev, op.table);
      InOrderMembers(TableNames(next), prev.tables, rank, true, op.definition);
      InReverse(dropped, op.definition);
      var i :| 0 <= i < |reversed| && reversed[i] == op.definition;
      assert Drops(reversed)[i] == op;
    }
  }

  lemma SharedContainIndexed(prev: Snapshot, next: Snapshot, op: ChangeOp)
    requires ValidSnapshot(prev) && ValidSnapshot(next)
    ensures op in SharedChanges(Index(prev), next.tables) <==>
              !op.CreateExtension? && op.table in Index(prev) && op.table in Index(next)
              && CalledFor(op, Index(prev)[op.table], Index(next)[op.table])
  {
    IndexedTablesAreValid(prev);
    SharedContain(Index(prev), next.tables, op);
    if !op.CreateExtension? {
      forall t | t in next.tables
        ensures t.name in Index(next) && Index(next)[t.name] == t
      {
        IndexHolds(next, t);
      }
      if op.table in Index(next) {
        IndexNames(next, op.table);
      }
    }
  }

  lemma CreationsContainIndexed(prev: Snapshot, next: Snapshot, mode: ForeignKeyMode, rank: string -> real,
                                created: seq<Table>, op: ChangeOp)
    requires TableOrder.Collates(rank) && ValidSnapshot(next)
    requires InOrder(TableNames(prev), next.tables, rank, mode.Inline?) == Success(created)
    ensures op in Creations(created, mode) <==>
              && !op.CreateExtension? && op.table in Index(next) && op.table !in Index(prev)
              && (|| op == Creation(Index(next)[op.table], mode)
                  || (mode.Deferred? && op.AddForeignKey? && op.fk in Index(next)[op.table].foreignKeys))
  {
    CreationsContain(created, mode, op);
    forall t
      ensures t in created <==> t.name in Index(next) && Index(next)[t.name] == t && t.name !in Index(prev)
    {
      InOrderMembers(TableNames(prev), next.tables, rank, mode.Inline?, t);
      IndexHolds(next, t);
    }
    if !op.CreateExtension? && op.table in Index(next) {
      IndexNames(next, op.table);
    }
  }

  /** The plan contains an operation exactly when the snapshots call for it. */
  lemma EmittedIffPlanned(prev: Snapshot, next: Snapshot, mode: ForeignKeyMode, rank: string -> real,
                          dropped: seq<Table>, created: seq<Table>, op: ChangeOp)
    requires TableOrder.Collates(rank) && ValidSnapshot(prev) && ValidSnapshot(next)
    requires Arranged(prev, next, mode, rank, dropped, created)
    ensures op in Emitted(prev, next, mode, dropped, created) <==> Planned(op, prev, next, mode)
  {
    ExtensionsContain(ExtensionNames(prev.extensions), next.extensions, op);
    DropsContain(prev, next, rank, dropped, op);
    SharedContainIndexed(prev, next, op);
    CreationsContainIndexed(prev, next, mode, rank, created, op);
  }

  lemma NamesDistinctBy(tables: seq<Table>)
    requires Distinct(Names(tables))
    ensures DistinctBy(TableName, tables)
  {
    forall i, j | 0 <= i < j < |tables|
      ensures TableName(tables[i]) != TableName(tables[j])
    {
      assert Names(tables)[i] != Names(tables)[j];
    }
  }

  lemma DropsDistinct(tables: seq<Table>)
    requires DistinctBy(TableName, tables)
    ensures Distinct(Drops(Reverse(tables)))
  {
    var r := Reverse(tables);
    DropsAre(r);
    forall i, j | 0 <= i < j < |r|
      ensures Drops(r)[i] != Drops(r)[j]
    {
      assert TableName(tables[|r| - 1 - j]) != TableName(tables[|r| - 1 - i]);
    }
  }

  lemma ArrangedTables(prev: Snapshot, next: Snapshot, mode: ForeignKeyMode, rank: string -> real,
                       dropped: seq<Table>, created: seq<Table>)
    requires TableOrder.Collates(rank) && ValidSnapshot(prev) && ValidSnapshot(next)
    requires Arranged(prev, next, mode, rank, dropped, created)
    ensures DistinctBy(TableName, dropped) && DistinctBy(TableName, created)
    ensures forall t | t in created :: ValidTable(t)
  {
    InOrderDistinct(TableNames(next), prev.tables, rank, true);
    InOrderDistinct(TableNames(prev), next.tables, rank, mode.Inline?);
    NamesDistinctBy(dropped);
    NamesDistinctBy(created);
    forall t | t in created
      ensures ValidTable(t)
    {
      InOrderMembers(TableNames(prev), next.tables, rank, mode.Inline?, t);
    }
  }

  /** Every operation is emitted once. */
  lemma EmittedDistinct(prev: Snapshot, next: Snapshot, mode: ForeignKeyMode, rank: string -> real,
                        dropped: seq<Table>, created: seq<Table>)
    requires TableOrder.Collates(rank) && ValidSnapshot(prev) && ValidSnapshot(next)
    requires Arranged(prev, next, mode, rank, dropped, created)
    ensures Distinct(Emitted(prev, next, mode, dropped, created))
  {
    var installed := ExtensionNames(prev.extensions);
    var e, d := NewExtensions(installed, next.extensions), Drops(Reverse(dropped));
    var s, c := SharedChanges(Index(prev), next.tables), Creations(created, mode);
    ArrangedTables(prev, next, mode, rank, dropped, created);
    ExtensionsDistinct(installed, next.extensions);
    DropsDistinct(dropped);
    forall n | n in Index(prev)
      ensures ValidTable(Index(prev)[n]) && Index(prev)[n].name == n
    {
      IndexNames(prev, n);
    }
    SharedDistinct(Index(prev), next.tables);
    CreationsDistinct(created, mode);
    forall op
      ensures op in e ==> op.CreateExtension?
      ensures op in d ==> op.DropTable?
      ensures op in s ==> !op.CreateExtension? && !op.DropTable? && op.table in Index(prev)
      ensures op in c ==> !op.CreateExtension? && !op.DropTable? && op.table !in Index(prev)
    {
      ExtensionsContain(installed, next.extensions, op);
      DropsContain(prev, next, rank, dropped, op);
      SharedContainIndexed(prev, next, op);
      CreationsContainIndexed(prev, next, mode, rank, created, op);
    }
    DistinctConcat(e, d);
    DistinctConcat(e + d, s);
    DistinctConcat(e + d + s, c);
  }

  // ---- emission order inside a phase ----

  lemma BeforeAcross(a: seq<ChangeOp>, b: seq<ChangeOp>, x: ChangeOp, y: ChangeOp)
    requires x in a && y in b
    ensures Before(a + b, x, y)
  {
    var i :| 0 <= i < |a| && a[i] == x;
    var j :| 0 <= j < |b| && b[j] == y;
    assert (a + b)[i] == x && (a + b)[|a| + j] == y;
  }

  lemma BeforeLeft(a: seq<ChangeOp>, b: seq<ChangeOp>, x: ChangeOp, y: ChangeOp)
    requires Before(a, x, y)
    ensures Before(a + b, x, y)
  {
    var i, j :| 0 <= i < j < |a| && a[i] == x && a[j] == y;
    assert (a + b)[i] == x && (a + b)[j] == y;
  }

  lemma BeforeRight(a: seq<ChangeOp>, b: seq<ChangeOp>, x: ChangeOp, y: ChangeOp)
    requires Before(b, x, y)
    ensures Before(a + b, x, y)
  {
    var i, j :| 0 <= i < j < |b| && b[i] == x && b[j] == y;
    assert (a + b)[|a| + i] == x && (a + b)[|a| + j] == y;
  }

  /** Columns are added to shared tables before any table is created. */
  lemma AddsBeforeCreations(prev: Snapshot, next: Snapshot, mode: ForeignKeyMode, rank: string -> real,
                            dropped: seq<Table>, created: seq<Table>, add: ChangeOp, create: ChangeOp)
    requires TableOrder.Collates(rank) && ValidSnapshot(prev) && ValidSnapshot(next)
    requires Arranged(prev, next, mode, rank, dropped, created)
    requires Planned(add, prev, next, mode) && Planned(create, prev, next, mode) && add.AddColumn?
             && create.CreateTable?
    ensures Before(Emitted(prev, next, mode, dropped, created), add, create)
  {
    SharedContainIndexed(prev, next, add);
    CreationsContainIndexed(prev, next, mode, rank, created, create);
    var head := NewExtensions(ExtensionNames(prev.extensions), next.extensions) + Drops(Reverse(dropped));
    BeforeAcross(head + SharedChanges(Index(prev), next.tables), Creations(created, mode), add, create);
  }

  lemma NamedEarlier(tables: seq<Table>, i: nat, k: nat, fk: ForeignKey) returns (j: nat)
    requires TargetsFirst(tables) && i < |tables| && k < |tables|
    requires fk in tables[i].foreignKeys && fk.targetTable == tables[k].name && tables[i].name != tables[k].name
    ensures j < i && tables[j].name == tables[k].name
  {
    assert Names(tables)[k] in Elements(Names(tables));
    assert fk.targetTable in Elements(Names(tables)[..i]);
    hide TargetsFirst;
    j :| 0 <= j < i && Names(tables)[..i][j] == fk.targetTable;
  }

  /** Where a referenced table of the list stands: before the table that references it. */
  lemma TargetPosition(tables: seq<Table>, child: Table, fk: ForeignKey, parent: Table) returns (j: nat, i: nat)
    requires TargetsFirst(tables) && DistinctBy(TableName, tables)
    requires child in tables && parent in tables && child.name != parent.name
    requires fk in child.foreignKeys && fk.targetTable == parent.name
    ensures j < i < |tables| && tables[j] == parent && tables[i] == child
  {
    i :| 0 <= i < |tables| && tables[i] == child;
    var k :| 0 <= k < |tables| && tables[k] == parent;
    j := NamedEarlier(tables, i, k, fk);
  }

  lemma BeforeAt(ops: seq<ChangeOp>, i: nat, j: nat)
    requires i < j < |ops|
    ensures Before(ops, ops[i], ops[j])
  {
  }

  lemma ReversedDrops(tables: seq<Table>, j: nat, i: nat)
    requires j < i < |tables|
    ensures Before(Drops(Reverse(tables)), Drop(tables[i]), Drop(tables[j]))
  {
    hide Drops, Drop, Before, Reverse;
    var r := Reverse(tables);
    DropsAre(r);
    assert r[|r| - 1 - i] == tables[i] && r[|r| - 1 - j] == tables[j];
    BeforeAt(Drops(r), |r| - 1 - i, |r| - 1 - j);
  }

  /** A dropped table that references another dropped table goes first. */
  lemma ChildrenDropFirst(prev: Snapshot, next: Snapshot, mode: ForeignKeyMode, rank: string -> real,
                          dropped: seq<Table>, created: seq<Table>, child: Table, fk: ForeignKey, parent: Table)
    requires TableOrder.Collates(rank) && ValidSnapshot(prev) && ValidSnapshot(next)
    requires Arranged(prev, next, mode, rank, dropped, created)
    requires child in dropped && parent in dropped && child.name != parent.name
    requires fk in child.foreignKeys && fk.targetTable == parent.name
    ensures Before(Emitted(prev, next, mode, dropped, created), Drop(child), Drop(parent))
  {
    InOrderTargetsFirst(TableNames(next), prev.tables, rank);
    ArrangedTables(prev, next, mode, rank, dropped, created);
    var j, i := TargetPosition(dropped, child, fk, parent);
    ReversedDrops(dropped, j, i);
    var x, y := Drop(child), Drop(parent);
    var e, d := NewExtensions(ExtensionNames(prev.extensions), next.extensions), Drops(Reverse(dropped));
    BeforeRight(e, d, x, y);
    BeforeLeft(e + d, SharedChanges(Index(prev), next.tables), x, y);
    BeforeLeft(e + d + SharedChanges(Index(prev), next.tables), Creations(created, mode), x, y);
  }

  lemma CreationsSnoc(tables: seq<Table>, mode: ForeignKeyMode)
    requires tables != []
    ensures var k := |tables| - 1;
            && Creations(tables, mode) == Creations(tables[..k], mode) + CreationOf(tables[k], mode)
            && Creation(tables[k], mode) in CreationOf(tables[k], mode)
  {
    hide Creation;
  }

  lemma CreatedSomewhere(tables: seq<Table>, mode: ForeignKeyMode, t: Table)
    requires t in tables
    ensures Creation(t, mode) in Creations(tables, mode)
  {
    CreationsContain(tables, mode, Creation(t, mode));
  }

  lemma {:induction false} CreationsInOrder(tables: seq<Table>, mode: ForeignKeyMode, j: nat, i: nat)
    requires j < i < |tables|
    ensures Before(Creations(tables, mode), Creation(tables[j], mode), Creation(tables[i], mode))
  {
    hide Before, Creation, Creations, CreationOf;
    var k := |tables| - 1;
    var x, y := Creation(tables[j], mode), Creation(tables[i], mode);
    CreationsSnoc(tables, mode);
    assert tables[..k][j] == tables[j];
    if i < k {
      CreationsInOrder(tables[..k], mode, j, i);
      assert tables[..k][i] == tables[i];
      BeforeLeft(Creations(tables[..k], mode), CreationOf(tables[k], mode), x, y);
    } else {
      CreatedSomewhere(tables[..k], mode, tables[j]);
      BeforeAcross(Creations(tables[..k], mode), CreationOf(tables[k], mode), x, y);
    }
  }

  /** With inline constraints, a created table's new targets are created first. */
  lemma TargetsCreatedFirst(prev: Snapshot, next: Snapshot, rank: string -> real,
                            dropped: seq<Table>, created: seq<Table>, child: Table, fk: ForeignKey, parent: Table)
    requires TableOrder.Collates(rank) && ValidSnapshot(prev) && ValidSnapshot(next)
    requires Arranged(prev, next, Inline, rank, dropped, created)
    requires child in created && parent in created && child.name != parent.name
    requires fk in child.foreignKeys && fk.targetTable == parent.name
    ensures Before(Emitted(prev, next, Inline, dropped, created), Creation(parent, Inline), Creation(child, Inline))
  {
    InOrderTargetsFirst(TableNames(prev), next.tables, rank);
    ArrangedTables(prev, next, Inline, rank, dropped, created);
    var j, i := TargetPosition(created, child, fk, parent);
    CreationsInOrder(created, Inline, j, i);
    var head := NewExtensions(ExtensionNames(prev.extensions), next.extensions) + Drops(Reverse(dropped))
                + SharedChanges(Index(prev), next.tables);
    BeforeRight(head, Creations(created, Inline), Creation(parent, Inline), Creation(child, Inline));
  }
}
