/** Each operation of a plan is accepted when its turn comes, and does what the plan state says. */
module PlanSteps {
  import opened Wrappers
  import opened Sequences
  import opened Snapshots
  import opened Schemas
  import opened Phases
  import opened Planner
  import opened PlanContents
  import opened PlanStates

  // ---- what closure of the target schema says about its tables ----

  predicate SoundForeignKey(n: map<string, Table>, t: Table, f: ForeignKey) {
    && (forall c | c in f.columns :: c in ColumnIndex(t))
    && f.targetTable in n
    && (forall c | c in f.targetColumns :: c in ColumnIndex(n[f.targetTable]))
  }

  ghost predicate SoundTable(n: map<string, Table>, extensions: set<string>, t: Table) {
    && ValidTable(t)
    && (forall c | c in t.primaryKey :: c in ColumnIndex(t))
    && (forall c | c in t.columns :: Installed(KindFacts(c.kind), extensions))
    && (forall f | f in t.foreignKeys :: SoundForeignKey(n, t, f))
  }

  ghost predicate Sound(n: map<string, Table>, extensions: set<string>) {
    Named(n) && forall t | t in n :: SoundTable(n, extensions, n[t])
  }

  lemma ColumnFound(t: Table, c: Column)
    requires ValidTable(t) && c in t.columns
    ensures c.name in ColumnIndex(t) && ColumnIndex(t)[c.name] == c
  {
    IndexByUnique(ColumnName, t.columns, c);
  }

  lemma ConstraintFound(t: Table, fk: ForeignKey)
    requires ValidTable(t) && fk in t.foreignKeys
    ensures fk.name in ConstraintIndex(t) && ConstraintIndex(t)[fk.name] == fk
  {
    IndexByUnique(ForeignKeyName, t.foreignKeys, fk);
  }

  lemma ClosedTableIsSound(s: Snapshot, t: string)
    requires ValidSnapshot(s) && Closed(SchemaOf(s)) && t in Index(s)
    ensures SoundTable(Index(s), ExtensionNames(s.extensions), Index(s)[t])
  {
    var table := Index(s)[t];
    var state := StateOf(table);
    assert TableClosed(SchemaOf(s).tables[t], SchemaOf(s));
    IndexNames(s, t);
    forall c | c in table.columns
      ensures Installed(KindFacts(c.kind), ExtensionNames(s.extensions))
    {
      ColumnFound(table, c);
      assert Installed(state.columns[c.name].kind, SchemaOf(s).extensions);
    }
    forall f | f in table.foreignKeys
      ensures SoundForeignKey(Index(s), table, f)
    {
      ConstraintFound(table, f);
      assert ForeignKeyClosed(state.foreignKeys[f.name], state, SchemaOf(s));
    }
  }

  lemma ClosedIsSound(s: Snapshot)
    requires ValidSnapshot(s) && Closed(SchemaOf(s))
    ensures Sound(Index(s), ExtensionNames(s.extensions))
  {
    forall t | t in Index(s)
      ensures Index(s)[t].name == t && SoundTable(Index(s), ExtensionNames(s.extensions), Index(s)[t])
    {
      IndexNames(s, t);
      ClosedTableIsSound(s, t);
    }
  }

  // ---- an operation's turn ----

  ghost predicate Ready(prev: Snapshot, next: Snapshot) {
    && ValidSnapshot(prev) && ValidSnapshot(next)
    && Named(Index(prev)) && (forall t | t in Index(prev) :: ValidTable(Index(prev)[t]))
    && Sound(Index(next), ExtensionNames(next.extensions))
  }

  /** The operations done so far when an operation's turn comes: every earlier phase, no later one. */
  ghost predicate Turn(prev: Snapshot, next: Snapshot, mode: ForeignKeyMode, done: set<ChangeOp>, op: ChangeOp) {
    && Planned(op, prev, next, mode) && op !in done
    && (forall a {:trigger Planned(a, prev, next, mode)} ::
          a in done ==> Planned(a, prev, next, mode) && Phase(a) <= Phase(op))
    && (forall a {:trigger Planned(a, prev, next, mode)} ::
          Planned(a, prev, next, mode) && Phase(a) < Phase(op) ==> a in done)
  }

  /** Tables that reference a table about to be dropped have been dropped. */
  ghost predicate ChildrenGone(prev: Snapshot, next: Snapshot, done: set<ChangeOp>, t: string) {
    forall child, fk | child in Index(prev) && child !in Index(next) && child != t
                       && fk in Index(prev)[child].foreignKeys && fk.targetTable == t ::
      Drop(Index(prev)[child]) in done
  }

  /** New columns, and new tables an inline constraint needs, are there before a table is created. */
  ghost predicate TargetsThere(prev: Snapshot, next: Snapshot, mode: ForeignKeyMode, done: set<ChangeOp>, t: string)
    requires t in Index(next)
  {
    && (forall a :: Planned(a, prev, next, mode) && a.AddColumn? ==> a in done)
    && (mode.Inline? ==>
          forall fk | fk in Index(next)[t].foreignKeys && fk.targetTable in Index(next)
                      && fk.targetTable !in Index(prev) && fk.targetTable != t ::
            Creation(Index(next)[fk.targetTable], mode) in done)
  }

  // ---- what stands at a turn ----

  lemma ExtensionsInstalled(prev: Snapshot, next: Snapshot, mode: ForeignKeyMode, done: set<ChangeOp>, op: ChangeOp)
    requires Turn(prev, next, mode, done, op) && Phase(op) > 0
    ensures ExtensionNames(next.extensions) <= ExtensionsAt(prev, done)
  {
    forall e | e in next.extensions
      ensures e.name in ExtensionsAt(prev, done)
    {
      if e.name !in ExtensionNames(prev.extensions) {
        assert Planned(CreateExtension(e.name, e.schema), prev, next, mode);
      }
    }
  }

  /** What is planned for an earlier phase has been done. */
  lemma EarlierIsDone(prev: Snapshot, next: Snapshot, mode: ForeignKeyMode, done: set<ChangeOp>, op: ChangeOp,
                      a: ChangeOp)
    requires Turn(prev, next, mode, done, op) && Planned(a, prev, next, mode) && Phase(a) < Phase(op)
    ensures a in done
  {
  }

  /** After the drop phase, a previous key still standing is one the next snapshot keeps. */
  lemma NotDroppedIsKept(prev: Snapshot, next: Snapshot, mode: ForeignKeyMode, done: set<ChangeOp>, op: ChangeOp,
                         t: string, fk: ForeignKey)
    requires Turn(prev, next, mode, done, op) && Phase(op) > 1 && t in Index(prev) && t in Index(next)
    requires fk in Index(prev)[t].foreignKeys && DropForeignKey(t, fk) !in done
    ensures KeptIn(fk, Index(next)[t].foreignKeys)
  {
    hide Turn, KeptIn;
    var drop := DropForeignKey(t, fk);
    if !KeptIn(fk, Index(next)[t].foreignKeys) {
      assert CalledFor(drop, Index(prev)[t], Index(next)[t]);
      assert Planned(drop, prev, next, mode);
      EarlierIsDone(prev, next, mode, done, op, drop);
    }
  }

  lemma DroppedColumnIsGone(prev: Snapshot, next: Snapshot, mode: ForeignKeyMode, done: set<ChangeOp>, op: ChangeOp,
                            t: string, c: Column)
    requires Turn(prev, next, mode, done, op) && t in Index(prev) && t in Index(next)
    requires DropColumn(t, c) in done
    ensures c.name !in ColumnIndex(Index(next)[t])
  {
    assert Planned(DropColumn(t, c), prev, next, mode);
  }

  /** Where a standing constraint comes from: the next snapshot, or the previous one and not yet dropped. */
  lemma ConstraintSource(b: Table, a: Table, done: set<ChangeOp>, name: string)
    requires name in SharedAt(b, a, done).foreignKeys
    ensures var fk := SharedAt(b, a, done).foreignKeys[name];
            && fk.name == name
            && (|| (fk in a.foreignKeys && AddForeignKey(a.name, fk) in done)
                || (fk in b.foreignKeys && DropForeignKey(a.name, fk) !in done))
  {
    IndexesAreNamed(a);
    IndexesAreNamed(b);
  }

  lemma CreatedConstraint(n: map<string, Table>, extensions: set<string>, mode: ForeignKeyMode, done: set<ChangeOp>,
                          t: string, name: string)
    requires Sound(n, extensions) && t in n && name in CreatedAt(n[t], mode, done).foreignKeys
    ensures SoundForeignKey(n, n[t], CreatedAt(n[t], mode, done).foreignKeys[name])
    ensures CreatedAt(n[t], mode, done).foreignKeys[name].name == name
  {
    IndexesAreNamed(n[t]);
    assert SoundTable(n, extensions, n[t]);
    assert ConstraintIndex(n[t])[name] in n[t].foreignKeys;
  }

  /** No table of the target schema lacks a column it will have, once columns have been added. */
  lemma ColumnsThere(prev: Snapshot, next: Snapshot, mode: ForeignKeyMode, done: set<ChangeOp>, op: ChangeOp, t: string)
    requires Turn(prev, next, mode, done, op) && t in Index(prev) && t in Index(next)
    requires Named(Index(next)) && forall a :: Planned(a, prev, next, mode) && a.AddColumn? ==> a in done
    ensures ColumnIndex(Index(next)[t]).Keys <= SharedAt(Index(prev)[t], Index(next)[t], done).columns.Keys
  {
    var b, a := Index(prev)[t], Index(next)[t];
    IndexesAreNamed(a);
    IndexesAreNamed(b);
    forall c | c in ColumnIndex(a)
      ensures ColumnStands(t, ColumnIndex(b), ColumnIndex(a), done, c)
    {
      if c in ColumnIndex(b) {
        if DropColumn(t, ColumnIndex(b)[c]) in done {
          DroppedColumnIsGone(prev, next, mode, done, op, t, ColumnIndex(b)[c]);
        }
      } else {
        assert Planned(AddColumn(t, ColumnIndex(a)[c]), prev, next, mode);
      }
    }
  }

  // ---- the steps on a shared table ----

  /** Replacing the parts of a shared table's state replaces the table in the schema. */
  lemma SharedStep(prev: Snapshot, next: Snapshot, mode: ForeignKeyMode, done: set<ChangeOp>, op: ChangeOp)
    requires Ready(prev, next) && !op.CreateExtension? && op.table in Index(prev) && op.table in Index(next)
    ensures op.table in At(prev, next, mode, done).tables
    ensures At(prev, next, mode, done).tables[op.table] == SharedAt(Index(prev)[op.table], Index(next)[op.table], done)
    ensures At(prev, next, mode, done + {op})
         == Put(At(prev, next, mode, done), op.table,
                SharedAt(Index(prev)[op.table], Index(next)[op.table], done + {op}))
  {
    AtPut(prev, next, mode, done, op);
  }

  lemma SharedDropConstraint(b: Table, a: Table, done: set<ChangeOp>, fk: ForeignKey)
    requires ValidTable(b) && fk in b.foreignKeys && DropForeignKey(a.name, fk) !in done
             && !Added(a.name, ConstraintIndex(a), done, fk.name)
    ensures fk.name in SharedAt(b, a, done).foreignKeys && SharedAt(b, a, done).foreignKeys[fk.name] == fk
    ensures SharedAt(b, a, done + {DropForeignKey(a.name, fk)})
         == SharedAt(b, a, done).(foreignKeys := SharedAt(b, a, done).foreignKeys - {fk.name})
  {
    IndexesAreNamed(b);
    ConstraintFound(b, fk);
    DropConstraintStep(a.name, ConstraintIndex(b), ConstraintIndex(a), done, fk);
    ColumnsUnaffected(a.name, ColumnIndex(b), ColumnIndex(a), done, DropForeignKey(a.name, fk));
  }

  lemma SharedAddColumn(b: Table, a: Table, done: set<ChangeOp>, c: Column)
    requires ValidTable(a) && c in a.columns && c.name !in ColumnIndex(b) && AddColumn(a.name, c) !in done
    ensures c.name !in SharedAt(b, a, done).columns
    ensures SharedAt(b, a, done + {AddColumn(a.name, c)})
         == SharedAt(b, a, done).(columns := SharedAt(b, a, done).columns[c.name := Facts(c)])
  {
    IndexesAreNamed(a);
    ColumnFound(a, c);
    AddColumnStep(a.name, ColumnIndex(b), ColumnIndex(a), done, c);
    ConstraintsUnaffected(a.name, ConstraintIndex(b), ConstraintIndex(a), done, AddColumn(a.name, c));
  }

  lemma SharedAlterColumn(b: Table, a: Table, done: set<ChangeOp>, before: Column, after: Column)
    requires ValidTable(b) && ValidTable(a) && before in b.columns && after in a.columns && before.name == after.name
    requires AlterColumn(a.name, before, after) !in done && DropColumn(a.name, before) !in done
    ensures before.name in SharedAt(b, a, done).columns && SharedAt(b, a, done).columns[before.name] == Facts(before)
    ensures SharedAt(b, a, done + {AlterColumn(a.name, before, after)})
         == SharedAt(b, a, done).(columns := SharedAt(b, a, done).columns[after.name := Facts(after)])
  {
    IndexesAreNamed(b);
    ColumnFound(b, before);
    ColumnFound(a, after);
    AlterColumnStep(a.name, ColumnIndex(b), ColumnIndex(a), done, before, after);
    ConstraintsUnaffected(a.name, ConstraintIndex(b), ConstraintIndex(a), done, AlterColumn(a.name, before, after));
  }

  lemma SharedDropColumn(b: Table, a: Table, done: set<ChangeOp>, c: Column)
    requires ValidTable(b) && c in b.columns && c.name !in ColumnIndex(a) && DropColumn(a.name, c) !in done
    ensures c.name in SharedAt(b, a, done).columns && SharedAt(b, a, done).columns[c.name] == Facts(c)
    ensures SharedAt(b, a, done + {DropColumn(a.name, c)})
         == SharedAt(b, a, done).(columns := SharedAt(b, a, done).columns - {c.name})
  {
    IndexesAreNamed(b);
    ColumnFound(b, c);
    DropColumnStep(a.name, ColumnIndex(b), ColumnIndex(a), done, c);
    ConstraintsUnaffected(a.name, ConstraintIndex(b), ConstraintIndex(a), done, DropColumn(a.name, c));
  }

  lemma SharedAddConstraint(b: Table, a: Table, done: set<ChangeOp>, fk: ForeignKey)
    requires ValidTable(a) && fk in a.foreignKeys && AddForeignKey(a.name, fk) !in done
    requires !Remains(a.name, ConstraintIndex(b), done, fk.name)
    ensures fk.name !in SharedAt(b, a, done).foreignKeys
    ensures SharedAt(b, a, done + {AddForeignKey(a.name, fk)})
         == SharedAt(b, a, done).(foreignKeys := SharedAt(b, a, done).foreignKeys[fk.name := fk])
  {
    IndexesAreNamed(a);
    ConstraintFound(a, fk);
    AddConstraintStep(a.name, ConstraintIndex(b), ConstraintIndex(a), done, fk);
    ColumnsUnaffected(a.name, ColumnIndex(b), ColumnIndex(a), done, AddForeignKey(a.name, fk));
  }

  lemma LaterPhaseNotDone(prev: Snapshot, next: Snapshot, mode: ForeignKeyMode, done: set<ChangeOp>, op: ChangeOp,
                          later: ChangeOp)
    requires Turn(prev, next, mode, done, op) && Phase(op) < Phase(later)
    ensures later !in done
  {
    var planned := Planned(later, prev, next, mode);
  }

  lemma NoConstraintAddedYet(prev: Snapshot, next: Snapshot, mode: ForeignKeyMode, done: set<ChangeOp>, op: ChangeOp,
                             t: string, a: Constraints, n: string)
    requires Turn(prev, next, mode, done, op) && Phase(op) < 6
    ensures !Added(t, a, done, n)
  {
    if n in a {
      LaterPhaseNotDone(prev, next, mode, done, op, AddForeignKey(t, a[n]));
    }
  }

  lemma DropForeignKeyRuns(prev: Snapshot, next: Snapshot, mode: ForeignKeyMode, done: set<ChangeOp>, op: ChangeOp)
    requires Ready(prev, next) && Turn(prev, next, mode, done, op) && op.DropForeignKey?
    ensures Apply(op, At(prev, next, mode, done)) == Some(At(prev, next, mode, done + {op}))
  {
    var b, a := Index(prev)[op.table], Index(next)[op.table];
    SharedStep(prev, next, mode, done, op);
    NoConstraintAddedYet(prev, next, mode, done, op, a.name, ConstraintIndex(a), op.fk.name);
    SharedDropConstraint(b, a, done, op.fk);
  }

  lemma KindInstalled(prev: Snapshot, next: Snapshot, mode: ForeignKeyMode, done: set<ChangeOp>, op: ChangeOp,
                      t: string, c: Column)
    requires Ready(prev, next) && Turn(prev, next, mode, done, op) && Phase(op) > 0
    requires t in Index(next) && c in Index(next)[t].columns
    ensures Installed(KindFacts(c.kind), At(prev, next, mode, done).extensions)
  {
    ExtensionsInstalled(prev, next, mode, done, op);
    assert SoundTable(Index(next), ExtensionNames(next.extensions), Index(next)[t]);
  }

  lemma AddColumnRuns(prev: Snapshot, next: Snapshot, mode: ForeignKeyMode, done: set<ChangeOp>, op: ChangeOp)
    requires Ready(prev, next) && Turn(prev, next, mode, done, op) && op.AddColumn?
    ensures Apply(op, At(prev, next, mode, done)) == Some(At(prev, next, mode, done + {op}))
  {
    SharedStep(prev, next, mode, done, op);
    SharedAddColumn(Index(prev)[op.table], Index(next)[op.table], done, op.column);
    KindInstalled(prev, next, mode, done, op, op.table, op.column);
  }

  lemma AlterColumnPlanned(prev: Snapshot, next: Snapshot, mode: ForeignKeyMode, done: set<ChangeOp>, op: ChangeOp)
    requires Ready(prev, next) && Turn(prev, next, mode, done, op) && op.AlterColumn?
    ensures op.table in Index(prev) && op.table in Index(next) && op.before.name == op.after.name
    ensures op.before in Index(prev)[op.table].columns && op.after in Index(next)[op.table].columns
    ensures ValidTable(Index(prev)[op.table]) && ValidTable(Index(next)[op.table])
            && Index(next)[op.table].name == op.table
    ensures DropColumn(op.table, op.before) !in done && op !in done
    ensures Installed(KindFacts(op.after.kind), At(prev, next, mode, done).extensions)
  {
    LaterPhaseNotDone(prev, next, mode, done, op, DropColumn(op.table, op.before));
    KindInstalled(prev, next, mode, done, op, op.table, op.after);
    assert SoundTable(Index(next), ExtensionNames(next.extensions), Index(next)[op.table]);
  }

  lemma AlterColumnRuns(prev: Snapshot, next: Snapshot, mode: ForeignKeyMode, done: set<ChangeOp>, op: ChangeOp)
    requires Ready(prev, next) && Turn(prev, next, mode, done, op) && op.AlterColumn?
    ensures Apply(op, At(prev, next, mode, done)) == Some(At(prev, next, mode, done + {op}))
  {
    AlterColumnPlanned(prev, next, mode, done, op);
    SharedStep(prev, next, mode, done, op);
    SharedAlterColumn(Index(prev)[op.table], Index(next)[op.table], done, op.before, op.after);
  }

  lemma AllColumnsAdded(prev: Snapshot, next: Snapshot, mode: ForeignKeyMode, done: set<ChangeOp>, op: ChangeOp)
    requires Turn(prev, next, mode, done, op) && Phase(op) > 3
    ensures forall a :: Planned(a, prev, next, mode) && a.AddColumn? ==> a in done
  {
  }

  lemma AlterKeyRuns(prev: Snapshot, next: Snapshot, mode: ForeignKeyMode, done: set<ChangeOp>, op: ChangeOp)
    requires Ready(prev, next) && Turn(prev, next, mode, done, op) && op.AlterPrimaryKey?
    ensures Apply(op, At(prev, next, mode, done)) == Some(At(prev, next, mode, done + {op}))
  {
    var b, a := Index(prev)[op.table], Index(next)[op.table];
    SharedStep(prev, next, mode, done, op);
    AllColumnsAdded(prev, next, mode, done, op);
    ColumnsThere(prev, next, mode, done, op, op.table);
    assert SoundTable(Index(next), ExtensionNames(next.extensions), a);
    assert forall c | c in op.keyAfter :: c in ColumnIndex(a).Keys;
    ColumnsUnaffected(a.name, ColumnIndex(b), ColumnIndex(a), done, op);
    ConstraintsUnaffected(a.name, ConstraintIndex(b), ConstraintIndex(a), done, op);
  }
}
