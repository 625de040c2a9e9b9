/** The operations whose acceptance depends on other tables: drops, creations and constraints. */
module PlanTurns {
  import opened Wrappers
  import opened Sequences
  import opened Snapshots
  import opened Schemas
  import opened Phases
  import opened Planner
  import opened PlanContents
  import opened PlanStates
  import opened PlanSteps

  lemma SharedConstraintSound(prev: Snapshot, next: Snapshot, mode: ForeignKeyMode, done: set<ChangeOp>, op: ChangeOp,
                              m: string, name: string)
    requires Ready(prev, next) && Turn(prev, next, mode, done, op) && Phase(op) > 1
    requires m in Index(prev) && m in Index(next) && name in SharedAt(Index(prev)[m], Index(next)[m], done).foreignKeys
    ensures SoundForeignKey(Index(next), Index(next)[m],
                            SharedAt(Index(prev)[m], Index(next)[m], done).foreignKeys[name])
  {
    var b, a := Index(prev)[m], Index(next)[m];
    ConstraintSource(b, a, done, name);
    var fk := SharedAt(b, a, done).foreignKeys[name];
    if fk in a.foreignKeys {
      assert KeptIn(fk, a.foreignKeys);
    } else {
      NotDroppedIsKept(prev, next, mode, done, op, m, fk);
    }
  }

  lemma DroppedTablesGone(prev: Snapshot, next: Snapshot, mode: ForeignKeyMode, done: set<ChangeOp>, op: ChangeOp,
                          m: string)
    requires Ready(prev, next) && Turn(prev, next, mode, done, op) && Phase(op) > 2
    requires m in At(prev, next, mode, done).tables
    ensures m in Index(next)
  {
    if m !in Index(next) {
      assert Planned(DropTable(m, Index(prev)[m]), prev, next, mode);
    }
  }

  /** Once the dropped tables are gone, every constraint in force is sound in the target schema. */
  lemma EveryConstraintSound(prev: Snapshot, next: Snapshot, mode: ForeignKeyMode, done: set<ChangeOp>, op: ChangeOp,
                             m: string, name: string)
    requires Ready(prev, next) && Turn(prev, next, mode, done, op) && Phase(op) > 2
    requires m in At(prev, next, mode, done).tables && name in At(prev, next, mode, done).tables[m].foreignKeys
    ensures m in Index(next)
    ensures SoundForeignKey(Index(next), Index(next)[m], At(prev, next, mode, done).tables[m].foreignKeys[name])
  {
    DroppedTablesGone(prev, next, mode, done, op, m);
    if m in Index(prev) {
      SharedConstraintSound(prev, next, mode, done, op, m, name);
    } else {
      CreatedConstraint(Index(next), ExtensionNames(next.extensions), mode, done, m, name);
    }
  }

  // ---- extensions ----

  lemma CreateExtensionRuns(prev: Snapshot, next: Snapshot, mode: ForeignKeyMode, done: set<ChangeOp>, op: ChangeOp)
    requires Ready(prev, next) && op.CreateExtension?
    ensures Apply(op, At(prev, next, mode, done)) == Some(At(prev, next, mode, done + {op}))
  {
    TablesStay(Index(prev), Index(next), mode, done, op);
    ExtensionsStep(prev, done, op);
  }

  // ---- dropping a column ----

  lemma KeyHasBeenAltered(prev: Snapshot, next: Snapshot, mode: ForeignKeyMode, done: set<ChangeOp>, op: ChangeOp,
                          t: string)
    requires Ready(prev, next) && Turn(prev, next, mode, done, op) && Phase(op) > 4
    requires t in Index(prev) && t in Index(next)
    ensures SharedAt(Index(prev)[t], Index(next)[t], done).primaryKey == Index(next)[t].primaryKey
  {
    var b, a := Index(prev)[t], Index(next)[t];
    if b.primaryKey != a.primaryKey {
      assert Planned(AlterPrimaryKey(t, b.primaryKey, a.primaryKey), prev, next, mode);
    }
  }

  lemma DroppedColumnUnused(prev: Snapshot, next: Snapshot, mode: ForeignKeyMode, done: set<ChangeOp>, op: ChangeOp,
                            t: string, c: string)
    requires Ready(prev, next) && Turn(prev, next, mode, done, op) && Phase(op) > 4
    requires t in Index(prev) && t in Index(next) && c !in ColumnIndex(Index(next)[t])
    requires t in At(prev, next, mode, done).tables
    ensures !ColumnInUse(t, c, At(prev, next, mode, done))
  {
    var s := At(prev, next, mode, done);
    KeyHasBeenAltered(prev, next, mode, done, op, t);
    assert SoundTable(Index(next), ExtensionNames(next.extensions), Index(next)[t]);
    forall m, n | m in s.tables && n in s.tables[m].foreignKeys
      ensures m == t ==> c !in s.tables[m].foreignKeys[n].columns
      ensures s.tables[m].foreignKeys[n].targetTable == t ==> c !in s.tables[m].foreignKeys[n].targetColumns
    {
      EveryConstraintSound(prev, next, mode, done, op, m, n);
    }
  }

  lemma DropColumnRuns(prev: Snapshot, next: Snapshot, mode: ForeignKeyMode, done: set<ChangeOp>, op: ChangeOp)
    requires Ready(prev, next) && Turn(prev, next, mode, done, op) && op.DropColumn?
    ensures Apply(op, At(prev, next, mode, done)) == Some(At(prev, next, mode, done + {op}))
  {
    SharedStep(prev, next, mode, done, op);
    SharedDropColumn(Index(prev)[op.table], Index(next)[op.table], done, op.column);
    DroppedColumnUnused(prev, next, mode, done, op, op.table, op.column.name);
  }

  // ---- dropping a table ----

  lemma NobodyReferences(prev: Snapshot, next: Snapshot, mode: ForeignKeyMode, done: set<ChangeOp>, op: ChangeOp,
                         m: string)
    requires Ready(prev, next) && Turn(prev, next, mode, done, op) && op.DropTable?
    requires ChildrenGone(prev, next, done, op.table)
    requires m in At(prev, next, mode, done).tables && m != op.table
    ensures !References(At(prev, next, mode, done).tables[m], op.table)
  {
    var state := At(prev, next, mode, done).tables[m];
    if m in Index(prev) && m in Index(next) {
      forall n | n in state.foreignKeys
        ensures state.foreignKeys[n].targetTable != op.table
      {
        SharedConstraintSound(prev, next, mode, done, op, m, n);
      }
    } else if m in Index(prev) {
      IndexesAreNamed(Index(prev)[m]);
      forall n | n in state.foreignKeys
        ensures state.foreignKeys[n].targetTable != op.table
      {
        assert state.foreignKeys[n] in Index(prev)[m].foreignKeys;
        assert Drop(Index(prev)[m]) == DropTable(m, Index(prev)[m]);
      }
    } else {
      LaterPhaseNotDone(prev, next, mode, done, op, Creation(Index(next)[m], mode));
    }
  }

  lemma AtAfterDrop(prev: Snapshot, next: Snapshot, mode: ForeignKeyMode, done: set<ChangeOp>, t: string)
    requires Named(Index(prev)) && Named(Index(next)) && t in Index(prev) && t !in Index(next)
    requires DropTable(t, Index(prev)[t]) !in done
    ensures t in At(prev, next, mode, done).tables && At(prev, next, mode, done).tables[t] == StateOf(Index(prev)[t])
    ensures At(prev, next, mode, done + {DropTable(t, Index(prev)[t])})
         == At(prev, next, mode, done).(tables := At(prev, next, mode, done).tables - {t})
  {
    var op := DropTable(t, Index(prev)[t]);
    ExtensionsStep(prev, done, op);
    OnlyOwnTable(Index(prev), Index(next), mode, done, op);
    assert !Present(Index(prev), Index(next), mode, done + {op}, t);
  }

  lemma DropTableRuns(prev: Snapshot, next: Snapshot, mode: ForeignKeyMode, done: set<ChangeOp>, op: ChangeOp)
    requires Ready(prev, next) && Turn(prev, next, mode, done, op) && op.DropTable?
    requires ChildrenGone(prev, next, done, op.table)
    ensures Apply(op, At(prev, next, mode, done)) == Some(At(prev, next, mode, done + {op}))
  {
    AtAfterDrop(prev, next, mode, done, op.table);
    var s := At(prev, next, mode, done);
    forall m | m in s.tables && m != op.table
      ensures !References(s.tables[m], op.table)
    {
      NobodyReferences(prev, next, mode, done, op, m);
    }
  }

  // ---- creating a table ----

  lemma AtAfterCreate(prev: Snapshot, next: Snapshot, mode: ForeignKeyMode, done: set<ChangeOp>, t: string)
    requires Named(Index(prev)) && Named(Index(next)) && t in Index(next) && t !in Index(prev)
    requires Creation(Index(next)[t], mode) !in done
    ensures t !in At(prev, next, mode, done).tables
    ensures At(prev, next, mode, done + {Creation(Index(next)[t], mode)})
         == Put(At(prev, next, mode, done), t, CreatedAt(Index(next)[t], mode, done))
  {
    var op := Creation(Index(next)[t], mode);
    ConstraintsUnaffected(t, map[], ConstraintIndex(Index(next)[t]), done, op);
    AtPut(prev, next, mode, done, op);
  }

  /** The constraints a table is created with: all of its own inline, none when they are deferred. */
  lemma CreatedWith(prev: Snapshot, next: Snapshot, mode: ForeignKeyMode, done: set<ChangeOp>, op: ChangeOp)
    requires Ready(prev, next) && Turn(prev, next, mode, done, op) && op.CreateTable?
    ensures CreatedAt(Index(next)[op.table], mode, done).foreignKeys == IndexBy(ForeignKeyName, op.foreignKeys)
    ensures DistinctBy(ForeignKeyName, op.foreignKeys)
  {
    var a := Index(next)[op.table];
    if mode.Deferred? {
      forall n | n in ConstraintIndex(a)
        ensures !Added(a.name, ConstraintIndex(a), done, n)
      {
        NoConstraintAddedYet(prev, next, mode, done, op, a.name, ConstraintIndex(a), n);
      }
      assert CreatedConstraints(a.name, ConstraintIndex(a), mode, done) == map[];
    } else {
      assert CreatedConstraints(a.name, ConstraintIndex(a), mode, done) == ConstraintIndex(a);
    }
  }

  lemma TargetColumnsThere(prev: Snapshot, next: Snapshot, done: set<ChangeOp>, op: ChangeOp, fk: ForeignKey)
    requires Ready(prev, next) && Turn(prev, next, Inline, done, op) && op.CreateTable?
    requires TargetsThere(prev, next, Inline, done, op.table) && fk in Index(next)[op.table].foreignKeys
    requires fk.targetTable != op.table && fk.targetTable in Index(next)
    ensures fk.targetTable in At(prev, next, Inline, done).tables
    ensures ColumnIndex(Index(next)[fk.targetTable]).Keys
         <= At(prev, next, Inline, done).tables[fk.targetTable].columns.Keys
  {
    if fk.targetTable in Index(prev) {
      ColumnsThere(prev, next, Inline, done, op, fk.targetTable);
    }
  }

  /** The columns an inline constraint points at are there. */
  lemma InlineTargetThere(prev: Snapshot, next: Snapshot, done: set<ChangeOp>, op: ChangeOp, fk: ForeignKey)
    requires Ready(prev, next) && Turn(prev, next, Inline, done, op) && op.CreateTable?
    requires TargetsThere(prev, next, Inline, done, op.table) && fk in op.foreignKeys
    ensures ForeignKeyClosed(fk, CreatedAt(Index(next)[op.table], Inline, done),
                             Put(At(prev, next, Inline, done), op.table,
                               CreatedAt(Index(next)[op.table], Inline, done)))
  {
    var n := Index(next);
    var a := n[op.table];
    assert SoundTable(n, ExtensionNames(next.extensions), a);
    assert SoundForeignKey(n, a, fk);
    hide Turn, At, Ready, TargetsThere, CreatedConstraints;
    if fk.targetTable != op.table {
      TargetColumnsThere(prev, next, done, op, fk);
      assert forall c | c in fk.targetColumns :: c in ColumnIndex(n[fk.targetTable]).Keys;
    }
  }

  lemma CreatedTableClosed(prev: Snapshot, next: Snapshot, mode: ForeignKeyMode, done: set<ChangeOp>, op: ChangeOp)
    requires Ready(prev, next) && Turn(prev, next, mode, done, op) && op.CreateTable?
    requires op.table in Index(next) && TargetsThere(prev, next, mode, done, op.table)
    ensures TableClosed(CreatedAt(Index(next)[op.table], mode, done),
                        Put(At(prev, next, mode, done), op.table, CreatedAt(Index(next)[op.table], mode, done)))
  {
    CreatedWith(prev, next, mode, done, op);
    var a := Index(next)[op.table];
    var state := CreatedAt(a, mode, done);
    var s' := Put(At(prev, next, mode, done), op.table, state);
    assert SoundTable(Index(next), ExtensionNames(next.extensions), a);
    IndexesAreNamed(a);
    forall c | c in state.columns
      ensures Installed(state.columns[c].kind, s'.extensions)
    {
      KindInstalled(prev, next, mode, done, op, op.table, ColumnIndex(a)[c]);
    }
    forall n | n in state.foreignKeys
      ensures state.foreignKeys[n].name == n && ForeignKeyClosed(state.foreignKeys[n], state, s')
    {
      IndexByFinds(ForeignKeyName, op.foreignKeys, n);
      InlineTargetThere(prev, next, done, op, state.foreignKeys[n]);
    }
  }

  lemma CreateTableRuns(prev: Snapshot, next: Snapshot, mode: ForeignKeyMode, done: set<ChangeOp>, op: ChangeOp)
    requires Ready(prev, next) && Turn(prev, next, mode, done, op) && op.CreateTable?
    requires op.table in Index(next) && TargetsThere(prev, next, mode, done, op.table)
    ensures Apply(op, At(prev, next, mode, done)) == Some(At(prev, next, mode, done + {op}))
  {
    CreatedWith(prev, next, mode, done, op);
    AtAfterCreate(prev, next, mode, done, op.table);
    CreatedTableClosed(prev, next, mode, done, op);
  }

  // ---- adding a constraint ----

  ghost predicate NamesAgree(b: Table, a: Table) {
    forall f, g | f in b.foreignKeys && g in a.foreignKeys && Identity(f) == Identity(g) && SameActions(f, g) ::
        f.name == g.name
  }

  /** No foreign key changes its name and nothing else. */
  ghost predicate NoNameOnlyChange(prev: Snapshot, next: Snapshot) {
    forall t | t in Index(prev) && t in Index(next) :: NamesAgree(Index(prev)[t], Index(next)[t])
  }

  lemma KeptUnderItsName(b: Table, a: Table, standing: ForeignKey, fk: ForeignKey)
    requires ValidTable(a) && NamesAgree(b, a) && standing in b.foreignKeys && KeptIn(standing, a.foreignKeys)
    requires fk in a.foreignKeys && fk.name == standing.name
    ensures KeptIn(fk, b.foreignKeys)
  {
    var f :| f in a.foreignKeys && Identity(f) == Identity(standing) && SameActions(f, standing);
    assert standing.name == f.name;
    ConstraintFound(a, f);
    ConstraintFound(a, fk);
  }

  lemma NameIsFree(prev: Snapshot, next: Snapshot, mode: ForeignKeyMode, done: set<ChangeOp>, op: ChangeOp)
    requires Ready(prev, next) && Turn(prev, next, mode, done, op) && op.AddForeignKey? && NoNameOnlyChange(prev, next)
    requires op.table in Index(prev) && op.table in Index(next)
    ensures !Remains(op.table, ConstraintIndex(Index(prev)[op.table]), done, op.fk.name)
  {
    var b, a := Index(prev)[op.table], Index(next)[op.table];
    if Remains(op.table, ConstraintIndex(b), done, op.fk.name) {
      IndexesAreNamed(b);
      var standing := ConstraintIndex(b)[op.fk.name];
      NotDroppedIsKept(prev, next, mode, done, op, op.table, standing);
      assert SoundTable(Index(next), ExtensionNames(next.extensions), a);
      KeptUnderItsName(b, a, standing, op.fk);
    }
  }

  /** When constraints are added, every table of the target schema is there with its columns. */
  lemma TargetStands(prev: Snapshot, next: Snapshot, mode: ForeignKeyMode, done: set<ChangeOp>, op: ChangeOp, t: string)
    requires Ready(prev, next) && Turn(prev, next, mode, done, op) && Phase(op) > 3 && t in Index(next)
    ensures t in At(prev, next, mode, done).tables
    ensures ColumnIndex(Index(next)[t]).Keys <= At(prev, next, mode, done).tables[t].columns.Keys
  {
    if t in Index(prev) {
      AllColumnsAdded(prev, next, mode, done, op);
      ColumnsThere(prev, next, mode, done, op, t);
    } else {
      assert Planned(Creation(Index(next)[t], mode), prev, next, mode);
    }
  }

  lemma AddForeignKeyPlanned(prev: Snapshot, next: Snapshot, mode: ForeignKeyMode, done: set<ChangeOp>, op: ChangeOp)
    requires Ready(prev, next) && Turn(prev, next, mode, done, op) && op.AddForeignKey?
    ensures op.table in Index(next) && Index(next)[op.table].name == op.table && ValidTable(Index(next)[op.table])
    ensures op.fk in Index(next)[op.table].foreignKeys && op !in done
    ensures op.table !in Index(prev) ==> mode.Deferred?
    ensures op.table in At(prev, next, mode, done).tables
    ensures ForeignKeyClosed(op.fk, At(prev, next, mode, done).tables[op.table], At(prev, next, mode, done))
  {
    var n := Index(next);
    assert op.fk in n[op.table].foreignKeys;
    assert SoundTable(n, ExtensionNames(next.extensions), n[op.table]);
    assert SoundForeignKey(n, n[op.table], op.fk);
    TargetStands(prev, next, mode, done, op, op.table);
    TargetStands(prev, next, mode, done, op, op.fk.targetTable);
    assert forall c | c in op.fk.columns :: c in ColumnIndex(n[op.table]).Keys;
    assert forall c | c in op.fk.targetColumns :: c in ColumnIndex(n[op.fk.targetTable]).Keys;
  }

  lemma AtAfterConstraint(prev: Snapshot, next: Snapshot, done: set<ChangeOp>, t: string, fk: ForeignKey)
    requires Ready(prev, next) && t in Index(next) && t !in Index(prev) && fk in Index(next)[t].foreignKeys
    requires Creation(Index(next)[t], Deferred) in done && AddForeignKey(t, fk) !in done
    ensures t in At(prev, next, Deferred, done).tables
    ensures At(prev, next, Deferred, done).tables[t] == CreatedAt(Index(next)[t], Deferred, done)
    ensures fk.name !in CreatedAt(Index(next)[t], Deferred, done).foreignKeys
    ensures var state := CreatedAt(Index(next)[t], Deferred, done);
            At(prev, next, Deferred, done + {AddForeignKey(t, fk)})
            == Put(At(prev, next, Deferred, done), t, state.(foreignKeys := state.foreignKeys[fk.name := fk]))
  {
    var a := Index(next)[t];
    assert SoundTable(Index(next), ExtensionNames(next.extensions), a);
    ConstraintFound(a, fk);
    IndexesAreNamed(a);
    AddConstraintStep(t, map[], ConstraintIndex(a), done, fk);
    AtPut(prev, next, Deferred, done, AddForeignKey(t, fk));
  }

  lemma TableHasBeenCreated(prev: Snapshot, next: Snapshot, mode: ForeignKeyMode, done: set<ChangeOp>, op: ChangeOp)
    requires Turn(prev, next, mode, done, op) && op.AddForeignKey?
    requires op.table in Index(next) && Index(next)[op.table].name == op.table && op.table !in Index(prev)
    ensures Creation(Index(next)[op.table], mode) in done
  {
    EarlierIsDone(prev, next, mode, done, op, Creation(Index(next)[op.table], mode));
  }

  lemma AddForeignKeyRuns(prev: Snapshot, next: Snapshot, mode: ForeignKeyMode, done: set<ChangeOp>, op: ChangeOp)
    requires Ready(prev, next) && Turn(prev, next, mode, done, op) && op.AddForeignKey? && NoNameOnlyChange(prev, next)
    ensures Apply(op, At(prev, next, mode, done)) == Some(At(prev, next, mode, done + {op}))
  {
    AddForeignKeyPlanned(prev, next, mode, done, op);
    if op.table in Index(prev) {
      hide Turn, Ready, At, SharedAt, ForeignKeyClosed, ValidTable, NoNameOnlyChange, Remains;
      SharedStep(prev, next, mode, done, op);
      NameIsFree(prev, next, mode, done, op);
      SharedAddConstraint(Index(prev)[op.table], Index(next)[op.table], done, op.fk);
    } else {
      TableHasBeenCreated(prev, next, mode, done, op);
      hide Turn, Ready, At, CreatedAt, ForeignKeyClosed, ValidTable, NoNameOnlyChange;
      AtAfterConstraint(prev, next, done, op.table, op.fk);
    }
  }
}
