/** The down plan walks back through the states the up plan passed through. */
module Reversal {
  import opened Wrappers
  import opened Sequences
  import opened Snapshots
  import opened Schemas

  lemma PutPut(s: Schema, table: string, t: TableState, u: TableState)
    ensures Put(Put(s, table, t), table, u) == Put(s, table, u)
    ensures table in s.tables && u == s.tables[table] ==> Put(s, table, u) == s
  {
    assert s.tables[table := t][table := u] == s.tables[table := u];
    if table in s.tables && u == s.tables[table] {
      assert s.tables[table := u] == s.tables;
    }
  }

  /** Constraints whose columns exist can be added one after the other, in any order. */
  ghost predicate Addable(fks: seq<ForeignKey>, table: string, s: Schema)
  {
    && table in s.tables
    && DistinctBy(ForeignKeyName, fks)
    && forall fk | fk in fks :: fk.name !in s.tables[table].foreignKeys && ForeignKeyClosed(fk, s.tables[table], s)
  }

  function WithConstraints(t: TableState, fks: seq<ForeignKey>): TableState {
    t.(foreignKeys := t.foreignKeys + IndexBy(ForeignKeyName, fks))
  }

  lemma WithConstraintsStep(t: TableState, fks: seq<ForeignKey>)
    requires fks != []
    ensures WithConstraints(t.(foreignKeys := t.foreignKeys[fks[0].name := fks[0]]), fks[1..])
            == WithConstraints(t, fks)
  {
    var rest := IndexBy(ForeignKeyName, fks[1..]);
    assert t.foreignKeys[fks[0].name := fks[0]] + rest == t.foreignKeys + (map[fks[0].name := fks[0]] + rest);
  }

  lemma {:induction false} AddConstraintsBuild(table: string, fks: seq<ForeignKey>, s: Schema)
    requires Addable(fks, table, s)
    ensures AddConstraints(table, fks, s) == Some(Put(s, table, WithConstraints(s.tables[table], fks)))
  {
    var t := s.tables[table];
    if fks == [] {
      assert t.foreignKeys + IndexBy(ForeignKeyName, fks) == t.foreignKeys;
      PutPut(s, table, t, t);
    } else {
      var s' := AddConstraint(table, fks[0], s).value;
      AddConstraintsBuild(table, fks[1..], s');
      WithConstraintsStep(t, fks);
      PutPut(s, table, s'.tables[table], WithConstraints(t, fks));
    }
  }

  lemma RemoveThenPut(s: Schema, table: string)
    requires Remove(table, s).Some?
    ensures Put(Remove(table, s).value, table, s.tables[table]) == s
  {
    assert (s.tables - {table})[table := s.tables[table]] == s.tables;
  }

  lemma RecreateBare(d: Table, s: Schema, s': Schema)
    requires Closed(s) && d.name in s.tables && ValidTable(d) && s.tables[d.name] == StateOf(d)
    requires Remove(d.name, s) == Some(s')
    ensures Create(d.name, d.columns, d.primaryKey, [], d.options, s')
         == Some(Put(s', d.name, StateOf(d).(foreignKeys := map[])))
    ensures Addable(d.foreignKeys, d.name, Put(s', d.name, StateOf(d).(foreignKeys := map[])))
  {
    var t := StateOf(d);
    var bare := t.(foreignKeys := map[]);
    var s1 := Put(s', d.name, bare);
    assert TableClosed(t, s);
    assert IndexBy(ForeignKeyName, []) == map[];
    assert TableClosed(bare, s1);
    forall fk | fk in d.foreignKeys
      ensures ForeignKeyClosed(fk, bare, s1)
    {
      IndexByUnique(ForeignKeyName, d.foreignKeys, fk);
      assert t.foreignKeys[ForeignKeyName(fk)] == fk;
      assert ForeignKeyClosed(fk, t, s);
    }
  }

  lemma RecreateThenConstrain(table: string, fks: seq<ForeignKey>, s: Schema, s1: Schema)
    requires Remove(table, s).Some?
    requires s.tables[table].foreignKeys == IndexBy(ForeignKeyName, fks)
    requires s1 == Put(Remove(table, s).value, table, s.tables[table].(foreignKeys := map[]))
    requires Addable(fks, table, s1)
    ensures AddConstraints(table, fks, s1) == Some(s)
  {
    var t := s.tables[table];
    AddConstraintsBuild(table, fks, s1);
    assert map[] + t.foreignKeys == t.foreignKeys;
    PutPut(Remove(table, s).value, table, t.(foreignKeys := map[]), t);
    RemoveThenPut(s, table);
  }

  lemma RecreateInline(d: Table, s: Schema, s': Schema)
    requires Closed(s) && d.name in s.tables && ValidTable(d) && s.tables[d.name] == StateOf(d)
    requires Remove(d.name, s) == Some(s')
    ensures Create(d.name, d.columns, d.primaryKey, d.foreignKeys, d.options, s') == Some(s)
  {
    RemoveThenPut(s, d.name);
    assert TableClosed(StateOf(d), s);
  }

  /** Recreating a dropped table restores it, whether the dialect states constraints inline or afterwards. */
  lemma RecreateRestores(d: Table, s: Schema, s': Schema, mode: ForeignKeyMode)
    requires Closed(s) && d.name in s.tables && ValidTable(d) && s.tables[d.name] == StateOf(d)
    requires Remove(d.name, s) == Some(s')
    ensures Undo(DropTable(d.name, d), s', mode) == Some(s)
  {
    if mode.Deferred? {
      RecreateBare(d, s, s');
      RecreateThenConstrain(d.name, d.foreignKeys, s, Put(s', d.name, StateOf(d).(foreignKeys := map[])));
    } else {
      RecreateInline(d, s, s');
    }
  }

  lemma RemoveInvertsCreate(s: Schema, table: string, t: TableState)
    requires Closed(s) && table !in s.tables
    ensures Remove(table, Put(s, table, t)) == Some(s)
  {
    forall m | m in s.tables ensures !References(s.tables[m], table) { assert TableClosed(s.tables[m], s); }
    assert s.tables[table := t] - {table} == s.tables;
  }

  lemma DropInvertsAddColumn(s: Schema, table: string, c: Column)
    requires Closed(s) && AddOneColumn(table, c, s).Some?
    ensures DropOneColumn(table, c.name, AddOneColumn(table, c, s).value) == Some(s)
  {
    var s' := AddOneColumn(table, c, s).value;
    assert TableClosed(s.tables[table], s);
    forall m, n | m in s'.tables && n in s'.tables[m].foreignKeys && s'.tables[m].foreignKeys[n].targetTable == table
      ensures c.name !in s'.tables[m].foreignKeys[n].targetColumns
    {
      assert TableClosed(s.tables[m], s);
      assert s'.tables[m].foreignKeys == s.tables[m].foreignKeys;
    }
    assert !ColumnInUse(table, c.name, s');
    assert s'.tables[table].columns - {c.name} == s.tables[table].columns;
    PutPut(s, table, s'.tables[table], s.tables[table]);
  }

  lemma AddInvertsDropColumn(s: Schema, table: string, c: Column)
    requires Closed(s) && Apply(DropColumn(table, c), s).Some?
    ensures AddOneColumn(table, c, Apply(DropColumn(table, c), s).value) == Some(s)
  {
    var s' := Apply(DropColumn(table, c), s).value;
    assert TableClosed(s.tables[table], s);
    assert s'.tables[table].columns[c.name := Facts(c)] == s.tables[table].columns;
    PutPut(s, table, s'.tables[table], s.tables[table]);
  }

  lemma AlterInvertsAlter(s: Schema, table: string, before: Column, after: Column)
    requires Closed(s) && Alter(table, before, after, s).Some?
    ensures Alter(table, after, before, Alter(table, before, after, s).value) == Some(s)
  {
    var s' := Alter(table, before, after, s).value;
    assert TableClosed(s.tables[table], s);
    assert s'.tables[table].columns[before.name := Facts(before)] == s.tables[table].columns;
    PutPut(s, table, s'.tables[table], s.tables[table]);
  }

  lemma RekeyInvertsRekey(s: Schema, table: string, before: seq<string>, after: seq<string>)
    requires Closed(s) && Rekey(table, before, after, s).Some?
    ensures Rekey(table, after, before, Rekey(table, before, after, s).value) == Some(s)
  {
    assert TableClosed(s.tables[table], s);
    PutPut(s, table, Rekey(table, before, after, s).value.tables[table], s.tables[table]);
  }

  lemma DropInvertsAddConstraint(s: Schema, table: string, fk: ForeignKey)
    requires AddConstraint(table, fk, s).Some?
    ensures DropConstraint(table, fk.name, AddConstraint(table, fk, s).value) == Some(s)
  {
    var s' := AddConstraint(table, fk, s).value;
    assert s'.tables[table].foreignKeys - {fk.name} == s.tables[table].foreignKeys;
    PutPut(s, table, s'.tables[table], s.tables[table]);
  }

  lemma AddInvertsDropConstraint(s: Schema, table: string, fk: ForeignKey)
    requires Closed(s) && Apply(DropForeignKey(table, fk), s).Some?
    ensures AddConstraint(table, fk, Apply(DropForeignKey(table, fk), s).value) == Some(s)
  {
    var s' := Apply(DropForeignKey(table, fk), s).value;
    assert TableClosed(s.tables[table], s);
    assert ForeignKeyClosed(fk, s.tables[table], s);
    assert s'.tables[table].foreignKeys[fk.name := fk] == s.tables[table].foreignKeys;
    PutPut(s, table, s'.tables[table], s.tables[table]);
  }

  /** An operation the down plan can revert, filed under the table it defines. */
  predicate Reversible(op: ChangeOp) {
    !op.CreateExtension? && (op.DropTable? ==> op.definition.name == op.table)
  }

  /** Each down statement undoes its up statement, because drops carry the whole definition in force. */
  lemma UndoInvertsApply(op: ChangeOp, s: Schema, mode: ForeignKeyMode)
    requires Closed(s) && Apply(op, s).Some? && Reversible(op)
    ensures Undo(op, Apply(op, s).value, mode) == Some(s)
  {
    match op
    case CreateTable(table, _, _, _, _) => RemoveInvertsCreate(s, table, Apply(op, s).value.tables[table]);
    case DropTable(table, d) => RecreateRestores(d, s, Apply(op, s).value, mode);
    case AddColumn(table, column) => DropInvertsAddColumn(s, table, column);
    case DropColumn(table, column) => AddInvertsDropColumn(s, table, column);
    case AlterColumn(table, before, after) => AlterInvertsAlter(s, table, before, after);
    case AlterPrimaryKey(table, before, after) => RekeyInvertsRekey(s, table, before, after);
    case AddForeignKey(table, fk) => DropInvertsAddConstraint(s, table, fk);
    case DropForeignKey(table, fk) => AddInvertsDropConstraint(s, table, fk);
  }

  lemma RunSnoc(ops: seq<ChangeOp>, op: ChangeOp, s: Schema)
    ensures Run(ops + [op], s) == match Run(ops, s) case None => None case Some(s') => Apply(op, s')
  {
    RunConcat(ops, [op], s);
    assert [op][1..] == [];
  }

  lemma RunDownSnoc(ops: seq<ChangeOp>, op: ChangeOp, s: Schema, mode: ForeignKeyMode)
    ensures RunDown(ops + [op], s, mode)
         == match Undo(op, s, mode) case None => None case Some(before) => RunDown(ops, before, mode)
  {
    assert (ops + [op])[..|ops|] == ops;
  }

  /**
   * After a whole plan, undoing its last operations down to any point j gives back exactly
   * the state the plan had there; at j = 0 that is the schema the plan started from.
   */
  lemma {:induction false} DownWalksBack(ops: seq<ChangeOp>, s: Schema, mode: ForeignKeyMode, j: nat)
    requires Closed(s) && Run(ops, s).Some? && j <= |ops|
    requires forall op | op in ops :: Reversible(op)
    ensures RunDown(ops[j..], Run(ops, s).value, mode) == Run(ops[..j], s)
    decreases |ops|
  {
    hide Run, Apply, Undo, Closed, Reversible;
    if j == |ops| {
      assert ops[..j] == ops && ops[j..] == [];
    } else {
      var n := |ops| - 1;
      assert ops == ops[..n] + [ops[n]];
      RunSnoc(ops[..n], ops[n], s);
      var before := Run(ops[..n], s).value;
      RunKeepsClosed(ops[..n], s);
      UndoInvertsApply(ops[n], before, mode);
      DownWalksBack(ops[..n], s, mode, j);
      SliceOfSlice(ops, j, n);
      assert ops[j..] == ops[j..n] + [ops[n]];
      RunDownSnoc(ops[j..n], ops[n], Run(ops, s).value, mode);
    }
  }

  /** The same for a plan that stopped after k operations. */
  lemma PrefixWalksBack(ops: seq<ChangeOp>, s: Schema, mode: ForeignKeyMode, k: nat, j: nat)
    requires Closed(s) && j <= k <= |ops| && Run(ops[..k], s).Some?
    requires forall op | op in ops :: Reversible(op)
    ensures RunDown(ops[j..k], Run(ops[..k], s).value, mode) == Run(ops[..j], s)
  {
    DownWalksBack(ops[..k], s, mode, j);
    assert ops[..k][j..] == ops[j..k] && ops[..k][..j] == ops[..j];
  }
}
