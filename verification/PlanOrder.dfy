/**
 * Where the operations of a plan stand: the emission is strictly ascending in an order that is read
 * off the snapshots alone.
 */
module PlanOrder {
  import opened Wrappers
  import opened Sequences
  import opened Snapshots
  import opened Schemas
  import TableOrder
  import opened CreationOrder
  import opened OrderFacts
  import opened Planner
  import opened PlanContents

  /** The first position of an element, the length if it does not occur. */
  function Position<T(==)>(s: seq<T>, x: T): (p: nat)
    ensures p <= |s| && (p < |s| ==> s[p] == x) && forall i | 0 <= i < p :: s[i] != x
  {
    if s == [] || s[0] == x then 0 else 1 + Position(s[1..], x)
  }

  lemma PositionAt<T, K>(key: T -> K, s: seq<T>, i: nat)
    requires DistinctBy(key, s) && i < |s|
    ensures Position(s, s[i]) == i
  {
    var p := Position(s, s[i]);
    assert p <= i && s[p] == s[i];
  }

  // ---- one shared table ----

  /** What foreign keys are matched by. */
  function Structures(fks: seq<ForeignKey>): (r: seq<(seq<string>, string, seq<string>)>)
    ensures |r| == |fks|
    ensures forall i | 0 <= i < |r| :: r[i] == (fks[i].columns, fks[i].targetTable, fks[i].targetColumns)
  {
    if fks == [] then [] else [(fks[0].columns, fks[0].targetTable, fks[0].targetColumns)] + Structures(fks[1..])
  }

  /** The position of the foreign key of the same structure, the length if there is none. */
  function Counterpart(fks: seq<ForeignKey>, fk: ForeignKey): (p: nat)
    ensures p <= |fks|
  {
    Position(Structures(fks), (fk.columns, fk.targetTable, fk.targetColumns))
  }

  /**
   * Where an operation stands among those of its table: column drops in the previous order, additions and
   * alterations in the next one, the key, foreign keys in the next order, each dropped before it is added
   * again, and last the drops of those that have no counterpart, in the previous order.
   */
  function PlaceIn(b: Table, a: Table, op: ChangeOp): (nat, nat) {
    match op
    case DropColumn(_, c) => (0, Position(b.columns, c))
    case AddColumn(_, c) => (1, Position(a.columns, c))
    case AlterColumn(_, _, c) => (1, Position(a.columns, c))
    case AlterPrimaryKey(_, _, _) => (2, 0)
    case AddForeignKey(_, fk) => (3, 2 * Position(a.foreignKeys, fk) + 1)
    case DropForeignKey(_, fk) =>
      var at := Counterpart(a.foreignKeys, fk);
      if at < |a.foreignKeys| then (3, 2 * at) else (4, Position(b.foreignKeys, fk))
    case _ => (5, 0)
  }

  predicate Earlier(x: (nat, nat), y: (nat, nat)) {
    x.0 < y.0 || (x.0 == y.0 && x.1 < y.1)
  }

  ghost predicate AscendsIn(b: Table, a: Table, ops: seq<ChangeOp>) {
    forall i, j | 0 <= i < j < |ops| :: Earlier(PlaceIn(b, a, ops[i]), PlaceIn(b, a, ops[j]))
  }

  lemma AscendsInBoth(b: Table, a: Table, x: seq<ChangeOp>, y: seq<ChangeOp>)
    requires AscendsIn(b, a, x) && AscendsIn(b, a, y)
    requires forall p, q | p in x && q in y :: Earlier(PlaceIn(b, a, p), PlaceIn(b, a, q))
    ensures AscendsIn(b, a, x + y)
  {
    hide PlaceIn;
    forall i, j | 0 <= i < j < |x + y|
      ensures Earlier(PlaceIn(b, a, (x + y)[i]), PlaceIn(b, a, (x + y)[j]))
    {
      if i < |x| <= j {
        assert x[i] in x && y[j - |x|] in y;
      }
    }
  }

  lemma {:induction false} ColumnDropsAscend(b: Table, a: Table, after: set<string>, k: nat)
    requires ValidTable(b) && k <= |b.columns|
    ensures var ops := ColumnDrops(a.name, b.columns[..k], after);
            && AscendsIn(b, a, ops)
            && forall op | op in ops :: PlaceIn(b, a, op).0 == 0 && PlaceIn(b, a, op).1 < k
  {
    if k > 0 {
      ColumnDropsAscend(b, a, after, k - 1);
      PositionAt(ColumnName, b.columns, k - 1);
      var last := if b.columns[k - 1].name in after then [] else [DropColumn(a.name, b.columns[k - 1])];
      assert b.columns[..k][..k - 1] == b.columns[..k - 1];
      AscendsInBoth(b, a, ColumnDrops(a.name, b.columns[..k - 1], after), last);
    }
  }

  lemma {:induction false} ColumnChangesAscend(b: Table, a: Table, k: nat)
    requires ValidTable(a) && k <= |a.columns|
    ensures var ops := ColumnChanges(a.name, ColumnIndex(b), a.columns[..k]);
            && AscendsIn(b, a, ops)
            && forall op | op in ops :: PlaceIn(b, a, op).0 == 1 && PlaceIn(b, a, op).1 < k
  {
    if k > 0 {
      ColumnChangesAscend(b, a, k - 1);
      PositionAt(ColumnName, a.columns, k - 1);
      var last := ColumnChange(a.name, ColumnIndex(b), a.columns[k - 1]);
      assert a.columns[..k][..k - 1] == a.columns[..k - 1];
      AscendsInBoth(b, a, ColumnChanges(a.name, ColumnIndex(b), a.columns[..k - 1]), last);
    }
  }

  lemma CounterpartAt(fks: seq<ForeignKey>, fk: ForeignKey, k: nat)
    requires DistinctBy(Identity, fks) && k < |fks| && Identity(fks[k]) == Identity(fk)
    ensures Counterpart(fks, fk) == k
  {
    var p := Counterpart(fks, fk);
    assert p <= k && Structures(fks)[p] == Structures(fks)[k];
    assert Identity(fks[p]) == Identity(fks[k]);
  }

  lemma NoCounterpart(fks: seq<ForeignKey>, fk: ForeignKey)
    ensures Counterpart(fks, fk) < |fks| <==> Matched(fk, fks)
  {
    if f :| f in fks && Identity(f) == Identity(fk) {
      var i :| 0 <= i < |fks| && fks[i] == f;
      assert Structures(fks)[i] == Identity(fk);
    }
    if Counterpart(fks, fk) < |fks| {
      assert Identity(fks[Counterpart(fks, fk)]) == Identity(fk);
    }
  }

  /** What one next key calls for: its counterpart's drop, if any, and then its own addition. */
  lemma ForeignKeyChangeAscends(b: Table, a: Table, k: nat)
    requires ValidTable(a) && ValidTable(b) && k < |a.foreignKeys|
    ensures var ops := ForeignKeyChange(a.name, IndexBy(Identity, b.foreignKeys), a.foreignKeys[..k], a.foreignKeys[k]);
            && AscendsIn(b, a, ops)
            && forall op | op in ops :: PlaceIn(b, a, op).0 == 3 && 2 * k <= PlaceIn(b, a, op).1 < 2 * k + 2
  {
    var fk := a.foreignKeys[k];
    PositionAt(Identity, a.foreignKeys, k);
    if Identity(fk) in IndexBy(Identity, b.foreignKeys) {
      IndexByFinds(Identity, b.foreignKeys, Identity(fk));
      CounterpartAt(a.foreignKeys, IndexBy(Identity, b.foreignKeys)[Identity(fk)], k);
    }
  }

  lemma ForeignKeySnoc(table: string, before: ByIdentity, next: seq<ForeignKey>, k: nat)
    requires k < |next|
    ensures ForeignKeyChanges(table, before, next[..k + 1])
         == ForeignKeyChanges(table, before, next[..k]) + ForeignKeyChange(table, before, next[..k], next[k])
  {
    assert next[..k + 1][..k] == next[..k] && next[..k + 1][k] == next[k];
  }

  lemma {:induction false} ForeignKeyChangesAscend(b: Table, a: Table, k: nat)
    requires ValidTable(a) && ValidTable(b) && k <= |a.foreignKeys|
    ensures var ops := ForeignKeyChanges(a.name, IndexBy(Identity, b.foreignKeys), a.foreignKeys[..k]);
            && AscendsIn(b, a, ops)
            && forall op | op in ops :: PlaceIn(b, a, op).0 == 3 && PlaceIn(b, a, op).1 < 2 * k
  {
    if k > 0 {
      hide ForeignKeyChange, ForeignKeyChanges, PlaceIn, ValidTable, IndexBy;
      ForeignKeyChangesAscend(b, a, k - 1);
      ForeignKeyChangeAscends(b, a, k - 1);
      var before := IndexBy(Identity, b.foreignKeys);
      ForeignKeySnoc(a.name, before, a.foreignKeys, k - 1);
      AscendsInBoth(b, a, ForeignKeyChanges(a.name, before, a.foreignKeys[..k - 1]),
                    ForeignKeyChange(a.name, before, a.foreignKeys[..k - 1], a.foreignKeys[k - 1]));
    }
  }

  lemma DropsSnoc(table: string, fks: seq<ForeignKey>, fk: ForeignKey)
    ensures ConstraintDrops(table, fks + [fk]) == ConstraintDrops(table, fks) + [DropForeignKey(table, fk)]
  {
    assert (fks + [fk])[..|fks|] == fks;
  }

  lemma UnmatchedSnocDrop(table: string, previous: seq<ForeignKey>, next: seq<ForeignKey>, k: nat)
    requires k < |previous|
    ensures ConstraintDrops(table, Unmatched(previous[..k + 1], next)) ==
            ConstraintDrops(table, Unmatched(previous[..k], next))
            + if Matched(previous[k], next) then [] else [DropForeignKey(table, previous[k])]
  {
    hide ConstraintDrops, Matched;
    var all, earlier := previous[..k + 1], Unmatched(previous[..k], next);
    assert all[..k] == previous[..k] && all[k] == previous[k] && all != [];
    assert Unmatched(all, next) == earlier + if Matched(previous[k], next) then [] else [previous[k]];
    DropsSnoc(table, earlier, previous[k]);
    if Matched(previous[k], next) {
      assert Unmatched(all, next) == earlier;
    }
  }

  lemma UnmatchedPlace(b: Table, a: Table, k: nat)
    requires ValidTable(b) && k < |b.foreignKeys| && !Matched(b.foreignKeys[k], a.foreignKeys)
    ensures PlaceIn(b, a, DropForeignKey(a.name, b.foreignKeys[k])) == (4, k)
  {
    var fk := b.foreignKeys[k];
    PositionAt(Identity, b.foreignKeys, k);
    NoCounterpart(a.foreignKeys, fk);
    assert Counterpart(a.foreignKeys, fk) == |a.foreignKeys| && Position(b.foreignKeys, fk) == k;
  }

  lemma {:induction false} UnmatchedDropsAscend(b: Table, a: Table, k: nat)
    requires ValidTable(b) && k <= |b.foreignKeys|
    ensures var ops := ConstraintDrops(a.name, Unmatched(b.foreignKeys[..k], a.foreignKeys));
            && AscendsIn(b, a, ops)
            && forall op | op in ops :: PlaceIn(b, a, op).0 == 4 && PlaceIn(b, a, op).1 < k
  {
    if k > 0 {
      UnmatchedDropsAscend(b, a, k - 1);
      hide PlaceIn, Unmatched, Matched, ConstraintDrops;
      UnmatchedSnocDrop(a.name, b.foreignKeys, a.foreignKeys, k - 1);
      if !Matched(b.foreignKeys[k - 1], a.foreignKeys) {
        UnmatchedPlace(b, a, k - 1);
        AscendsInBoth(b, a, ConstraintDrops(a.name, Unmatched(b.foreignKeys[..k - 1], a.foreignKeys)),
                      [DropForeignKey(a.name, b.foreignKeys[k - 1])]);
      }
    }
  }

  lemma KeyChangeAscends(b: Table, a: Table)
    ensures var ops := KeyChange(a.name, b.primaryKey, a.primaryKey);
            AscendsIn(b, a, ops) && forall op | op in ops :: PlaceIn(b, a, op).0 == 2
  {
  }

  lemma ColumnsAscend(b: Table, a: Table)
    requires ValidTable(b) && ValidTable(a)
    ensures var ops := ColumnDrops(a.name, b.columns, ColumnIndex(a).Keys)
                       + ColumnChanges(a.name, ColumnIndex(b), a.columns)
                       + KeyChange(a.name, b.primaryKey, a.primaryKey);
            AscendsIn(b, a, ops) && forall op | op in ops :: PlaceIn(b, a, op).0 < 3
  {
    hide ColumnDrops, ColumnChanges, KeyChange, PlaceIn;
    var drops := ColumnDrops(a.name, b.columns, ColumnIndex(a).Keys);
    var changes := ColumnChanges(a.name, ColumnIndex(b), a.columns);
    assert b.columns[..|b.columns|] == b.columns && a.columns[..|a.columns|] == a.columns;
    ColumnDropsAscend(b, a, ColumnIndex(a).Keys, |b.columns|);
    ColumnChangesAscend(b, a, |a.columns|);
    KeyChangeAscends(b, a);
    AscendsInBoth(b, a, drops, changes);
    AscendsInBoth(b, a, drops + changes, KeyChange(a.name, b.primaryKey, a.primaryKey));
  }

  lemma ConstraintsAscend(b: Table, a: Table)
    requires ValidTable(b) && ValidTable(a)
    ensures var ops := ForeignKeyDiff(a.name, b.foreignKeys, a.foreignKeys);
            AscendsIn(b, a, ops) && forall op | op in ops :: PlaceIn(b, a, op).0 >= 3
  {
    hide ForeignKeyChanges, ConstraintDrops, PlaceIn;
    MergedIsItself(Identity, b.foreignKeys);
    assert b.foreignKeys[..|b.foreignKeys|] == b.foreignKeys && a.foreignKeys[..|a.foreignKeys|] == a.foreignKeys;
    ForeignKeyChangesAscend(b, a, |a.foreignKeys|);
    UnmatchedDropsAscend(b, a, |b.foreignKeys|);
    AscendsInBoth(b, a, ForeignKeyChanges(a.name, IndexBy(Identity, b.foreignKeys), a.foreignKeys),
                  ConstraintDrops(a.name, Unmatched(b.foreignKeys, a.foreignKeys)));
  }

  lemma TableChangesAscend(b: Table, a: Table)
    requires ValidTable(b) && ValidTable(a)
    ensures AscendsIn(b, a, TableChanges(b, a))
  {
    hide ColumnDrops, ColumnChanges, KeyChange, ForeignKeyDiff, PlaceIn;
    var columns := ColumnDrops(a.name, b.columns, ColumnIndex(a).Keys)
                   + ColumnChanges(a.name, ColumnIndex(b), a.columns)
                   + KeyChange(a.name, b.primaryKey, a.primaryKey);
    ColumnsAscend(b, a);
    ConstraintsAscend(b, a);
    AscendsInBoth(b, a, columns, ForeignKeyDiff(a.name, b.foreignKeys, a.foreignKeys));
  }

  // ---- the whole emission ----

  /** The snapshots, and the orders in which tables are dropped, read backwards, and created. */
  datatype Emission = Emission(prev: Snapshot, next: Snapshot, dropped: seq<Table>, created: seq<Table>)

  datatype Spot = Spot(section: nat, table: nat, place: (nat, nat))

  predicate Sooner(x: Spot, y: Spot) {
    || x.section < y.section
    || (x.section == y.section && (x.table < y.table || (x.table == y.table && Earlier(x.place, y.place))))
  }

  /** A created table comes first and then, in their order, the constraints added later. */
  function PlaceAfter(t: Table, op: ChangeOp): (nat, nat) {
    match op
    case AddForeignKey(_, fk) => (1, Position(t.foreignKeys, fk))
    case _ => (0, 0)
  }

  /**
   * Where an operation stands: extensions in the next order, drops in the reverse order of references,
   * shared tables in the next order, and creations in theirs, each followed by its later constraints.
   */
  function SpotOf(e: Emission, op: ChangeOp): Spot {
    match op
    case CreateExtension(name, schema) => Spot(0, Position(e.next.extensions, Extension(name, schema)), (0, 0))
    case DropTable(_, d) => Spot(1, |e.dropped| - Position(e.dropped, d), (0, 0))
    case _ =>
      if op.table !in Index(e.next) then Spot(4, 0, (0, 0))
      else
        var t := Index(e.next)[op.table];
        if op.table in Index(e.prev) then
          Spot(2, Position(e.next.tables, t), PlaceIn(Index(e.prev)[op.table], t, op))
        else
          Spot(3, Position(e.created, t), PlaceAfter(t, op))
  }

  ghost predicate Ascends(e: Emission, ops: seq<ChangeOp>) {
    forall i, j | 0 <= i < j < |ops| :: Sooner(SpotOf(e, ops[i]), SpotOf(e, ops[j]))
  }

  lemma AscendsBoth(e: Emission, x: seq<ChangeOp>, y: seq<ChangeOp>)
    requires Ascends(e, x) && Ascends(e, y)
    requires forall p, q | p in x && q in y :: Sooner(SpotOf(e, p), SpotOf(e, q))
    ensures Ascends(e, x + y)
  {
    hide SpotOf;
    forall i, j | 0 <= i < j < |x + y|
      ensures Sooner(SpotOf(e, (x + y)[i]), SpotOf(e, (x + y)[j]))
    {
      if i < |x| <= j {
        assert x[i] in x && y[j - |x|] in y;
      }
    }
  }

  lemma {:induction false} ExtensionsAscend(e: Emission, installed: set<string>, k: nat)
    requires ValidSnapshot(e.next) && k <= |e.next.extensions|
    ensures var ops := NewExtensions(installed, e.next.extensions[..k]);
            Ascends(e, ops) && forall op | op in ops :: SpotOf(e, op).section == 0 && SpotOf(e, op).table < k
  {
    if k > 0 {
      ExtensionsAscend(e, installed, k - 1);
      PositionAt(ExtensionName, e.next.extensions, k - 1);
      var x := e.next.extensions[k - 1];
      assert e.next.extensions[..k][..k - 1] == e.next.extensions[..k - 1];
      AscendsBoth(e, NewExtensions(installed, e.next.extensions[..k - 1]),
                  if x.name in installed then [] else [CreateExtension(x.name, x.schema)]);
    }
  }

  lemma DropSpot(e: Emission, i: nat)
    requires DistinctBy(TableName, e.dropped) && i < |e.dropped|
    ensures SpotOf(e, Drop(Reverse(e.dropped)[i])) == Spot(1, i + 1, (0, 0))
  {
    hide Reverse;
    PositionAt(TableName, e.dropped, |e.dropped| - 1 - i);
  }

  lemma DropsAscend(e: Emission)
    requires DistinctBy(TableName, e.dropped)
    ensures var ops := Drops(Reverse(e.dropped)); Ascends(e, ops) && forall op | op in ops :: SpotOf(e, op).section == 1
  {
    hide Drops, SpotOf, Reverse;
    var ops := Drops(Reverse(e.dropped));
    DropsAre(Reverse(e.dropped));
    forall i: nat | i < |ops|
      ensures SpotOf(e, ops[i]) == Spot(1, i + 1, (0, 0))
    {
      DropSpot(e, i);
    }
  }

  /** The changes of one shared table, where that table stands in the next snapshot. */
  lemma ChangesAscend(e: Emission, k: nat)
    requires ValidSnapshot(e.prev) && ValidSnapshot(e.next) && k < |e.next.tables|
    ensures var ops := ChangesOf(Index(e.prev), e.next.tables[k]);
            Ascends(e, ops) && forall op | op in ops :: SpotOf(e, op).section == 2 && SpotOf(e, op).table == k
  {
    var a := e.next.tables[k];
    IndexHolds(e.next, a);
    PositionAt(TableName, e.next.tables, k);
    if a.name in Index(e.prev) {
      IndexNames(e.prev, a.name);
      var b := Index(e.prev)[a.name];
      TableChangesAscend(b, a);
      hide TableChanges, PlaceIn;
      forall op | op in TableChanges(b, a)
        ensures SpotOf(e, op) == Spot(2, k, PlaceIn(b, a, op))
      {
        TableChangesContain(b, a, op);
      }
    }
  }

  lemma SharedSnoc(previous: map<string, Table>, tables: seq<Table>, k: nat)
    requires k < |tables|
    ensures SharedChanges(previous, tables[..k + 1])
         == SharedChanges(previous, tables[..k]) + ChangesOf(previous, tables[k])
  {
    assert tables[..k + 1][..k] == tables[..k] && tables[..k + 1][k] == tables[k];
  }

  lemma NothingAscends(e: Emission)
    ensures Ascends(e, SharedChanges(Index(e.prev), e.next.tables[..0]))
    ensures SharedChanges(Index(e.prev), e.next.tables[..0]) == []
  {
  }

  lemma {:induction false} SharedAscend(e: Emission, k: nat)
    requires ValidSnapshot(e.prev) && ValidSnapshot(e.next) && k <= |e.next.tables|
    ensures var ops := SharedChanges(Index(e.prev), e.next.tables[..k]);
            Ascends(e, ops) && forall op | op in ops :: SpotOf(e, op).section == 2 && SpotOf(e, op).table < k
  {
    if k > 0 {
      hide ChangesOf, SpotOf, SharedChanges, Index, ValidSnapshot, Ascends;
      SharedAscend(e, k - 1);
      ChangesAscend(e, k - 1);
      SharedSnoc(Index(e.prev), e.next.tables, k - 1);
      AscendsBoth(e, SharedChanges(Index(e.prev), e.next.tables[..k - 1]),
                  ChangesOf(Index(e.prev), e.next.tables[k - 1]));
    } else {
      NothingAscends(e);
    }
  }

  ghost predicate Creates(e: Emission) {
    && DistinctBy(TableName, e.created)
    && forall t | t in e.created :: ValidTable(t) && t.name !in Index(e.prev) && t.name in Index(e.next)
                                    && Index(e.next)[t.name] == t
  }

  lemma AddSpot(e: Emission, i: nat, k: nat)
    requires Creates(e) && i < |e.created| && k < |e.created[i].foreignKeys|
    ensures var t := e.created[i]; SpotOf(e, AddForeignKey(t.name, t.foreignKeys[k])) == Spot(3, i, (1, k))
  {
    var t := e.created[i];
    assert t in e.created;
    PositionAt(Identity, t.foreignKeys, k);
    PositionAt(TableName, e.created, i);
  }

  lemma AddsSnoc(table: string, fks: seq<ForeignKey>, k: nat)
    requires k < |fks|
    ensures ConstraintAdds(table, fks[..k + 1]) == ConstraintAdds(table, fks[..k]) + [AddForeignKey(table, fks[k])]
  {
    assert fks[..k + 1][..k] == fks[..k] && fks[..k + 1][k] == fks[k];
  }

  lemma {:induction false} AddsAscend(e: Emission, i: nat, k: nat)
    requires Creates(e) && i < |e.created| && k <= |e.created[i].foreignKeys|
    ensures var t := e.created[i];
            var ops := ConstraintAdds(t.name, t.foreignKeys[..k]);
            && Ascends(e, ops)
            && forall op | op in ops :: exists p :: 0 <= p < k && SpotOf(e, op) == Spot(3, i, (1, p))
  {
    if k > 0 {
      hide SpotOf, ConstraintAdds, Creates;
      var t := e.created[i];
      AddsAscend(e, i, k - 1);
      AddSpot(e, i, k - 1);
      AddsSnoc(t.name, t.foreignKeys, k - 1);
      AscendsBoth(e, ConstraintAdds(t.name, t.foreignKeys[..k - 1]), [AddForeignKey(t.name, t.foreignKeys[k - 1])]);
    }
  }

  lemma CreationAscends(e: Emission, mode: ForeignKeyMode, i: nat)
    requires Creates(e) && i < |e.created|
    ensures var ops := CreationOf(e.created[i], mode);
            Ascends(e, ops) && forall op | op in ops :: SpotOf(e, op).section == 3 && SpotOf(e, op).table == i
  {
    var t := e.created[i];
    PositionAt(TableName, e.created, i);
    assert t in e.created && SpotOf(e, Creation(t, mode)) == Spot(3, i, (0, 0));
    if mode.Deferred? {
      assert t.foreignKeys[..|t.foreignKeys|] == t.foreignKeys;
      AddsAscend(e, i, |t.foreignKeys|);
      hide SpotOf, ConstraintAdds;
      AscendsBoth(e, [Creation(t, mode)], ConstraintAdds(t.name, t.foreignKeys));
    }
  }

  lemma {:induction false} CreationsAscend(e: Emission, mode: ForeignKeyMode, k: nat)
    requires Creates(e) && k <= |e.created|
    ensures var ops := Creations(e.created[..k], mode);
            Ascends(e, ops) && forall op | op in ops :: SpotOf(e, op).section == 3 && SpotOf(e, op).table < k
  {
    if k > 0 {
      hide CreationOf, SpotOf;
      CreationsAscend(e, mode, k - 1);
      CreationAscends(e, mode, k - 1);
      assert e.created[..k][..k - 1] == e.created[..k - 1];
      AscendsBoth(e, Creations(e.created[..k - 1], mode), CreationOf(e.created[k - 1], mode));
    }
  }

  lemma CreatedOnce(prev: Snapshot, next: Snapshot, mode: ForeignKeyMode, rank: string -> real,
                    dropped: seq<Table>, created: seq<Table>)
    requires TableOrder.Collates(rank) && ValidSnapshot(prev) && ValidSnapshot(next)
    requires Arranged(prev, next, mode, rank, dropped, created)
    ensures Creates(Emission(prev, next, dropped, created)) && DistinctBy(TableName, dropped)
  {
    ArrangedTables(prev, next, mode, rank, dropped, created);
    forall t | t in created
      ensures t.name !in Index(prev) && t.name in Index(next) && Index(next)[t.name] == t
    {
      InOrderMembers(TableNames(prev), next.tables, rank, mode.Inline?, t);
      IndexHolds(next, t);
    }
  }

  lemma SharedSection(e: Emission)
    requires ValidSnapshot(e.prev) && ValidSnapshot(e.next)
    ensures var ops := SharedChanges(Index(e.prev), e.next.tables);
            Ascends(e, ops) && forall op | op in ops :: SpotOf(e, op).section == 2
  {
    assert e.next.tables[..|e.next.tables|] == e.next.tables;
    SharedAscend(e, |e.next.tables|);
  }

  lemma ExtensionSection(e: Emission, installed: set<string>)
    requires ValidSnapshot(e.next)
    ensures var ops := NewExtensions(installed, e.next.extensions);
            Ascends(e, ops) && forall op | op in ops :: SpotOf(e, op).section == 0
  {
    assert e.next.extensions[..|e.next.extensions|] == e.next.extensions;
    ExtensionsAscend(e, installed, |e.next.extensions|);
  }

  lemma CreationSection(e: Emission, mode: ForeignKeyMode)
    requires Creates(e)
    ensures var ops := Creations(e.created, mode);
            Ascends(e, ops) && forall op | op in ops :: SpotOf(e, op).section == 3
  {
    assert e.created[..|e.created|] == e.created;
    CreationsAscend(e, mode, |e.created|);
  }

  lemma SameEmission(prev: Snapshot, next: Snapshot, mode: ForeignKeyMode, dropped: seq<Table>, created: seq<Table>)
    ensures Emitted(prev, next, mode, dropped, created)
         == NewExtensions(ExtensionNames(prev.extensions), next.extensions) + Drops(Reverse(dropped))
            + SharedChanges(Index(prev), next.tables) + Creations(created, mode)
  {
  }

  /**
   * Everything about the order of emission. It is strictly ascending, so that together with which
   * operations are emitted it leaves no freedom.
   */
  lemma EmissionAscends(prev: Snapshot, next: Snapshot, mode: ForeignKeyMode, rank: string -> real,
                        dropped: seq<Table>, created: seq<Table>)
    requires TableOrder.Collates(rank) && ValidSnapshot(prev) && ValidSnapshot(next)
    requires Arranged(prev, next, mode, rank, dropped, created)
    ensures Ascends(Emission(prev, next, dropped, created), Emitted(prev, next, mode, dropped, created))
  {
    hide SpotOf, NewExtensions, Drops, SharedChanges, Creations, Reverse;
    hide Index, ValidSnapshot, Arranged, Creates, Ascends;
    var e := Emission(prev, next, dropped, created);
    var installed := ExtensionNames(prev.extensions);
    var extensions, drops := NewExtensions(installed, next.extensions), Drops(Reverse(dropped));
    var shared, creations := SharedChanges(Index(prev), next.tables), Creations(created, mode);
    CreatedOnce(prev, next, mode, rank, dropped, created);
    ExtensionSection(e, installed);
    DropsAscend(e);
    SharedSection(e);
    CreationSection(e, mode);
    AscendsBoth(e, extensions, drops);
    AscendsBoth(e, extensions + drops, shared);
    AscendsBoth(e, extensions + drops + shared, creations);
    SameEmission(prev, next, mode, dropped, created);
  }
}
