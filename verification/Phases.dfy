/** Sorting operations into phases: a stable sort on the phase number. */
module Phases {
  import opened Sequences
  import opened Snapshots

  function Phase(op: ChangeOp): nat {
    match op
    case CreateExtension(_, _) => 0
    case DropForeignKey(_, _) => 1
    case DropTable(_, _) => 2
    case CreateTable(_, _, _, _, _) => 3
    case AddColumn(_, _) => 3
    case AlterColumn(_, _, _) => 4
    case AlterPrimaryKey(_, _, _) => 4
    case DropColumn(_, _) => 5
    case AddForeignKey(_, _) => 6
  }

  /** Stable insertion: the new operation came first, so it stays ahead of its own phase. */
  function Insert(op: ChangeOp, sorted: seq<ChangeOp>): seq<ChangeOp>
  {
    if sorted == [] || Phase(op) <= Phase(sorted[0]) then [op] + sorted
    else [sorted[0]] + Insert(op, sorted[1..])
  }

  function OrderChanges(ops: seq<ChangeOp>): seq<ChangeOp>
  {
    if ops == [] then [] else Insert(ops[0], OrderChanges(ops[1..]))
  }

  function InPhase(p: nat, ops: seq<ChangeOp>): seq<ChangeOp>
  {
    if ops == [] then []
    else if Phase(ops[0]) == p then [ops[0]] + InPhase(p, ops[1..])
    else InPhase(p, ops[1..])
  }

  ghost predicate ByPhase(ops: seq<ChangeOp>) {
    forall i, j :: 0 <= i < j < |ops| ==> Phase(ops[i]) <= Phase(ops[j])
  }

  /** a occurs somewhere before b. */
  ghost predicate Before(ops: seq<ChangeOp>, a: ChangeOp, b: ChangeOp) {
    exists i, j :: 0 <= i < j < |ops| && ops[i] == a && ops[j] == b
  }

  lemma {:induction false} InsertPermutes(op: ChangeOp, sorted: seq<ChangeOp>)
    ensures multiset(Insert(op, sorted)) == multiset{op} + multiset(sorted)
  {
    if sorted != [] && Phase(op) > Phase(sorted[0]) {
      InsertPermutes(op, sorted[1..]);
      assert sorted == [sorted[0]] + sorted[1..];
    }
  }

  lemma ByPhaseCons(op: ChangeOp, rest: seq<ChangeOp>)
    requires ByPhase(rest) && forall x | x in rest :: Phase(op) <= Phase(x)
    ensures ByPhase([op] + rest)
  {
  }

  lemma {:induction false} InsertOrders(op: ChangeOp, sorted: seq<ChangeOp>)
    requires ByPhase(sorted)
    ensures ByPhase(Insert(op, sorted))
  {
    if sorted != [] && Phase(op) > Phase(sorted[0]) {
      var rest := Insert(op, sorted[1..]);
      InsertOrders(op, sorted[1..]);
      InsertPermutes(op, sorted[1..]);
      forall x | x in rest
        ensures Phase(sorted[0]) <= Phase(x)
      {
        assert x in multiset(rest);
        assert x == op || x in sorted[1..];
      }
      ByPhaseCons(sorted[0], rest);
    }
  }

  lemma {:induction false} OrderingPermutes(ops: seq<ChangeOp>)
    ensures multiset(OrderChanges(ops)) == multiset(ops)
  {
    if ops != [] {
      OrderingPermutes(ops[1..]);
      InsertPermutes(ops[0], OrderChanges(ops[1..]));
      assert ops == [ops[0]] + ops[1..];
    }
  }

  lemma {:induction false} OrderingIsByPhase(ops: seq<ChangeOp>)
    ensures ByPhase(OrderChanges(ops))
  {
    if ops != [] {
      OrderingIsByPhase(ops[1..]);
      InsertOrders(ops[0], OrderChanges(ops[1..]));
    }
  }

  lemma {:induction false} InPhaseInsert(p: nat, op: ChangeOp, sorted: seq<ChangeOp>)
    requires ByPhase(sorted)
    ensures InPhase(p, Insert(op, sorted)) == (if Phase(op) == p then [op] else []) + InPhase(p, sorted)
  {
    if sorted != [] && Phase(op) > Phase(sorted[0]) {
      InPhaseInsert(p, op, sorted[1..]);
      var rest := Insert(op, sorted[1..]);
      assert ([sorted[0]] + rest)[1..] == rest;
      if Phase(op) == p {
        assert Phase(sorted[0]) != p;
      }
    } else {
      assert ([op] + sorted)[1..] == sorted;
    }
  }

  /** Stability: within a phase the operations keep the order they were emitted in. */
  lemma {:induction false} OrderingIsStable(p: nat, ops: seq<ChangeOp>)
    ensures InPhase(p, OrderChanges(ops)) == InPhase(p, ops)
  {
    if ops != [] {
      OrderingIsStable(p, ops[1..]);
      OrderingIsByPhase(ops[1..]);
      InPhaseInsert(p, ops[0], OrderChanges(ops[1..]));
    }
  }

  lemma {:induction false} InPhaseMembers(p: nat, ops: seq<ChangeOp>, op: ChangeOp)
    ensures op in InPhase(p, ops) <==> op in ops && Phase(op) == p
  {
    if ops != [] {
      InPhaseMembers(p, ops[1..], op);
    }
  }

  lemma HeadBefore(rest: seq<ChangeOp>, a: ChangeOp, b: ChangeOp)
    requires b in rest
    ensures Before([a] + rest, a, b)
  {
    var j :| 0 <= j < |rest| && rest[j] == b;
    assert ([a] + rest)[0] == a && ([a] + rest)[j + 1] == b;
  }

  lemma TailBefore(op: ChangeOp, rest: seq<ChangeOp>, a: ChangeOp, b: ChangeOp)
    requires Before(rest, a, b)
    ensures Before([op] + rest, a, b)
  {
    var i, j :| 0 <= i < j < |rest| && rest[i] == a && rest[j] == b;
    assert ([op] + rest)[i + 1] == a && ([op] + rest)[j + 1] == b;
  }

  lemma BeforeFromTail(ops: seq<ChangeOp>, a: ChangeOp, b: ChangeOp)
    requires ops != []
    ensures ops[0] == a && b in ops[1..] ==> Before(ops, a, b)
    ensures Before(ops[1..], a, b) ==> Before(ops, a, b)
  {
    hide Before;
    var rest := ops[1..];
    assert ops == [ops[0]] + rest;
    if ops[0] == a && b in rest {
      HeadBefore(rest, a, b);
    }
    if Before(rest, a, b) {
      TailBefore(ops[0], rest, a, b);
    }
  }

  lemma BeforeToTail(ops: seq<ChangeOp>, a: ChangeOp, b: ChangeOp)
    requires Before(ops, a, b)
    ensures (ops[0] == a && b in ops[1..]) || Before(ops[1..], a, b)
  {
    var rest := ops[1..];
    var i, j :| 0 <= i < j < |ops| && ops[i] == a && ops[j] == b;
    assert rest[j - 1] == b;
    if i > 0 {
      assert rest[i - 1] == a;
    }
  }

  lemma BeforeCons(ops: seq<ChangeOp>, a: ChangeOp, b: ChangeOp)
    requires ops != []
    ensures Before(ops, a, b) <==> (ops[0] == a && b in ops[1..]) || Before(ops[1..], a, b)
  {
    BeforeFromTail(ops, a, b);
    if Before(ops, a, b) {
      BeforeToTail(ops, a, b);
    }
  }

  lemma {:induction false} BeforeInPhase(p: nat, ops: seq<ChangeOp>, a: ChangeOp, b: ChangeOp)
    requires Phase(a) == Phase(b) == p
    ensures Before(InPhase(p, ops), a, b) <==> Before(ops, a, b)
  {
    if ops != [] {
      BeforeInPhase(p, ops[1..], a, b);
      BeforeCons(ops, a, b);
      InPhaseMembers(p, ops[1..], b);
      if Phase(ops[0]) == p {
        var f := InPhase(p, ops);
        assert f[1..] == InPhase(p, ops[1..]);
        BeforeCons(f, a, b);
      }
    }
  }

  /** The sorted plan keeps earlier phases, and earlier emissions of one phase, ahead. */
  lemma OrderingRespects(ops: seq<ChangeOp>, a: ChangeOp, b: ChangeOp)
    requires a in ops && b in ops
    requires Phase(a) < Phase(b) || (Phase(a) == Phase(b) && Before(ops, a, b))
    ensures Before(OrderChanges(ops), a, b)
  {
    hide OrderChanges;
    var plan := OrderChanges(ops);
    if Phase(a) == Phase(b) {
      BeforeInPhase(Phase(a), ops, a, b);
      OrderingIsStable(Phase(a), ops);
      BeforeInPhase(Phase(a), plan, a, b);
    } else {
      OrderingPermutes(ops);
      OrderingIsByPhase(ops);
      assert a in multiset(ops) && b in multiset(ops);
      assert a in multiset(plan) && b in multiset(plan);
      var i :| 0 <= i < |plan| && plan[i] == a;
      var j :| 0 <= j < |plan| && plan[j] == b;
      assert i < j;
    }
  }

  /** a is of a kind that a database has to see before b's. */
  predicate Ahead(a: ChangeOp, b: ChangeOp) {
    match a
    case CreateExtension(_, _) => !b.CreateExtension?
    case DropForeignKey(_, _) => !b.CreateExtension? && !b.DropForeignKey?
    case DropTable(_, _) => !b.CreateExtension? && !b.DropForeignKey? && !b.DropTable?
    case CreateTable(_, _, _, _, _) => b.AlterColumn? || b.AlterPrimaryKey? || b.DropColumn? || b.AddForeignKey?
    case AddColumn(_, _) => b.AlterColumn? || b.AlterPrimaryKey? || b.DropColumn? || b.AddForeignKey?
    case AlterColumn(_, _, _) => b.DropColumn? || b.AddForeignKey?
    case AlterPrimaryKey(_, _, _) => b.DropColumn? || b.AddForeignKey?
    case DropColumn(_, _) => b.AddForeignKey?
    case AddForeignKey(_, _) => false
  }

  /** Which of two operations comes first: kinds decide, and then the order of emission. */
  lemma KindsDecide(ops: seq<ChangeOp>, a: ChangeOp, b: ChangeOp)
    requires a in ops && b in ops
    requires Ahead(a, b) || (!Ahead(b, a) && Before(ops, a, b))
    ensures Before(OrderChanges(ops), a, b)
  {
    OrderingRespects(ops, a, b);
  }

  lemma {:induction false} DistinctIsOnce(ops: seq<ChangeOp>)
    requires Distinct(ops)
    ensures forall op :: multiset(ops)[op] <= 1
  {
    if ops != [] {
      var rest := ops[1..];
      forall i, j | 0 <= i < j < |rest|
        ensures rest[i] != rest[j]
      {
        assert ops[i + 1] != ops[j + 1];
      }
      DistinctIsOnce(rest);
      assert ops == [ops[0]] + rest;
      assert ops[0] !in rest;
    }
  }

  lemma HeadIsDifferent(ops: seq<ChangeOp>)
    requires ops != [] && Distinct(ops[1..]) && ops[0] !in multiset(ops[1..])
    ensures Distinct(ops)
  {
    forall i, j | 0 <= i < j < |ops|
      ensures ops[i] != ops[j]
    {
      assert ops[j] == ops[1..][j - 1] && ops[j] in multiset(ops[1..]);
      if i > 0 {
        assert ops[i] == ops[1..][i - 1];
      }
    }
  }

  lemma {:induction false} OnceIsDistinct(ops: seq<ChangeOp>)
    requires forall op :: multiset(ops)[op] <= 1
    ensures Distinct(ops)
  {
    if ops != [] {
      var rest := ops[1..];
      assert ops == [ops[0]] + rest;
      assert multiset(ops) == multiset{ops[0]} + multiset(rest);
      forall op
        ensures multiset(rest)[op] <= 1
      {
        assert multiset(ops)[op] <= 1;
      }
      OnceIsDistinct(rest);
      assert multiset(ops)[ops[0]] <= 1;
      HeadIsDifferent(ops);
    }
  }

  lemma OrderingKeepsDistinct(ops: seq<ChangeOp>)
    requires Distinct(ops)
    ensures Distinct(OrderChanges(ops))
    ensures Elements(OrderChanges(ops)) == Elements(ops)
  {
    DistinctIsOnce(ops);
    OrderingPermutes(ops);
    OnceIsDistinct(OrderChanges(ops));
    forall op
      ensures op in OrderChanges(ops) <==> op in ops
    {
      assert op in multiset(OrderChanges(ops)) <==> op in multiset(ops);
    }
  }
}
