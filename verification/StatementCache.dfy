/** The SQLite store's cache of prepared statements, bounded by dropping the least recently used. */
module StatementCache {
  import opened Wrappers
  import opened Sequences
  import opened OrderedMaps

  /** A statement, and which of the database's prepare calls made it. */
  datatype Statement = Statement(sql: string, call: nat)

  datatype Trouble = StoreClosed | PrepareFailed

  // ---- the most recently used texts ----

  /** When a text was last asked for: 0 for never, else one more than its last position. */
  function LastUse(asked: seq<string>, sql: string): (n: nat)
    ensures n <= |asked|
    ensures n == 0 <==> sql !in asked
    ensures n > 0 ==> asked[n - 1] == sql
  {
    if asked == [] then 0
    else
      var k := |asked| - 1;
      assert asked == asked[..k] + [asked[k]];
      if asked[k] == sql then |asked| else LastUse(asked[..k], sql)
  }

  lemma AskOnceMore(asked: seq<string>, sql: string, other: string)
    ensures LastUse(asked + [sql], other) == if other == sql then |asked| + 1 else LastUse(asked, other)
  {
    assert (asked + [sql])[..|asked|] == asked;
  }

  ghost predicate InUseOrder(asked: seq<string>, kept: seq<string>) {
    forall i, j | 0 <= i < j < |kept| :: LastUse(asked, kept[i]) < LastUse(asked, kept[j])
  }

  /** The most recent `max` distinct texts among those asked for, in order of last use. */
  ghost predicate MostRecent(asked: seq<string>, max: nat, kept: seq<string>) {
    && |kept| <= max
    && (forall k | k in kept :: k in asked)
    && InUseOrder(asked, kept)
    && (forall sql, k | sql in asked && sql !in kept && k in kept :: LastUse(asked, sql) < LastUse(asked, k))
    && (forall sql | sql in asked && sql !in kept :: |kept| == max)
  }

  lemma WithoutKeepsUseOrder(asked: seq<string>, kept: seq<string>, sql: string)
    requires InUseOrder(asked, kept)
    ensures InUseOrder(asked, Without(kept, sql))
  {
    hide Without, LastUse, Distinct;
    if sql in kept {
      var k :| 0 <= k < |kept| && kept[k] == sql;
      WithoutAt(kept, k);
      var rest := kept[..k] + kept[k + 1..];
      forall i, j | 0 <= i < j < |rest|
        ensures LastUse(asked, rest[i]) < LastUse(asked, rest[j])
      {
        assert rest[i] == kept[if i < k then i else i + 1] && rest[j] == kept[if j < k then j else j + 1];
      }
    } else {
      WithoutAbsent(kept, sql);
    }
  }

  /** Moving the text just asked for to the end keeps the order of last use. */
  lemma MoveLast(asked: seq<string>, kept: seq<string>, sql: string)
    requires InUseOrder(asked, kept)
    ensures InUseOrder(asked + [sql], Without(kept, sql) + [sql])
  {
    WithoutKeepsTheRest(kept, sql);
    var rest := Without(kept, sql);
    WithoutKeepsUseOrder(asked, kept, sql);
    forall i, j | 0 <= i < j < |rest + [sql]|
      ensures LastUse(asked + [sql], (rest + [sql])[i]) < LastUse(asked + [sql], (rest + [sql])[j])
    {
      assert rest[i] in rest;
      AskOnceMore(asked, sql, rest[i]);
      AskOnceMore(asked, sql, (rest + [sql])[j]);
      if j < |rest| {
        assert rest[j] in rest;
      }
    }
  }

  lemma OutsideIsOlder(asked: seq<string>, max: nat, kept: seq<string>, sql: string, x: string)
    requires max > 0 && MostRecent(asked, max, kept) && x in asked + [sql] && x !in kept
    requires var moved := Without(kept, sql) + [sql];
             x !in (if |moved| > max then moved[1..] else moved)
    ensures var moved := Without(kept, sql) + [sql];
            var after := if |moved| > max then moved[1..] else moved;
            |after| == max && forall k | k in after :: LastUse(asked + [sql], x) < LastUse(asked + [sql], k)
  {
    hide LastUse, Without;
    var moved := Without(kept, sql) + [sql];
    var after := if |moved| > max then moved[1..] else moved;
    WithoutKeepsTheRest(kept, sql);
    assert after[|after| - 1] == sql;
    assert x in asked && x != sql;
    forall k | k in after
      ensures LastUse(asked + [sql], x) < LastUse(asked + [sql], k)
    {
      AskOnceMore(asked, sql, x);
      AskOnceMore(asked, sql, k);
      assert k == sql || k in kept;
    }
  }

  lemma LeftOutIsOlder(asked: seq<string>, max: nat, kept: seq<string>, sql: string, x: string)
    requires max > 0 && MostRecent(asked, max, kept) && x in asked + [sql]
    requires var moved := Without(kept, sql) + [sql];
             x !in (if |moved| > max then moved[1..] else moved)
    ensures var moved := Without(kept, sql) + [sql];
            var after := if |moved| > max then moved[1..] else moved;
            |after| == max && forall k | k in after :: LastUse(asked + [sql], x) < LastUse(asked + [sql], k)
  {
    hide LastUse, Without;
    var moved := Without(kept, sql) + [sql];
    WithoutKeepsTheRest(kept, sql);
    MoveLast(asked, kept, sql);
    hide MostRecent, InUseOrder;
    if x in kept {
      assert moved[|moved| - 1] == sql && |moved| > max && x in moved;
      assert x == moved[0];
    } else {
      OutsideIsOlder(asked, max, kept, sql, x);
    }
  }

  lemma UseOrderIsDistinct(asked: seq<string>, kept: seq<string>)
    requires InUseOrder(asked, kept)
    ensures Distinct(kept)
  {
    hide LastUse;
  }

  lemma SuffixInUseOrder(asked: seq<string>, kept: seq<string>)
    requires InUseOrder(asked, kept) && kept != []
    ensures InUseOrder(asked, kept[1..])
  {
    hide LastUse;
    assert forall i | 0 <= i < |kept| - 1 :: kept[1..][i] == kept[i + 1];
  }

  /** The cache after one more query: the text moves last, and the first one leaves when there are too many. */
  lemma OneMoreQuery(asked: seq<string>, max: nat, kept: seq<string>, sql: string)
    requires max > 0 && MostRecent(asked, max, kept)
    ensures var moved := Without(kept, sql) + [sql];
            |moved| <= max + 1 && MostRecent(asked + [sql], max, if |moved| > max then moved[1..] else moved)
  {
    hide LastUse, Without, InUseOrder;
    var moved := Without(kept, sql) + [sql];
    var after := if |moved| > max then moved[1..] else moved;
    UseOrderIsDistinct(asked, kept);
    WithoutKeepsTheRest(kept, sql);
    MoveLast(asked, kept, sql);
    SuffixInUseOrder(asked + [sql], moved);
    forall x | x in asked + [sql] && x !in after
      ensures |after| == max
      ensures forall k | k in after :: LastUse(asked + [sql], x) < LastUse(asked + [sql], k)
    {
      LeftOutIsOlder(asked, max, kept, sql, x);
    }
    forall k | k in after
      ensures k in asked + [sql]
    {
      assert k in moved;
    }
  }

  // ---- there is only one such list ----

  lemma NoneLeftOut(asked: seq<string>, max: nat, a: seq<string>, b: seq<string>)
    requires MostRecent(asked, max, a) && MostRecent(asked, max, b)
    ensures forall x | x in a :: x in b
  {
    CardinalityOfDistinct(a);
    CardinalityOfDistinct(b);
    forall x | x in a
      ensures x in b
    {
      if x !in b {
        forall y | y in b
          ensures y in a
        {
          assert LastUse(asked, x) < LastUse(asked, y);
        }
        assert |b| == max;
        SubsetCardinality(Elements(b) + {x}, Elements(a));
      }
    }
  }

  lemma {:induction false} SameTexts(asked: seq<string>, a: seq<string>, b: seq<string>)
    requires InUseOrder(asked, a) && InUseOrder(asked, b) && forall x :: x in a <==> x in b
    ensures a == b
  {
    if a == [] {
      assert forall i | 0 <= i < |b| :: b[i] in b;
    } else {
      assert a[0] in a && a[0] in b;
      assert b[0] in b && b[0] in a;
      var i :| 0 <= i < |b| && b[i] == a[0];
      var j :| 0 <= j < |a| && a[j] == b[0];
      assert a[0] == b[0];
      assert forall x :: x in a[1..] <==> x in a && x != a[0];
      assert forall x :: x in b[1..] <==> x in b && x != b[0];
      SameTexts(asked, a[1..], b[1..]);
      assert a == [a[0]] + a[1..] && b == [b[0]] + b[1..];
    }
  }

  lemma MostRecentIsUnique(asked: seq<string>, max: nat, a: seq<string>, b: seq<string>)
    requires MostRecent(asked, max, a) && MostRecent(asked, max, b)
    ensures a == b
  {
    NoneLeftOut(asked, max, a, b);
    NoneLeftOut(asked, max, b, a);
    SameTexts(asked, a, b);
  }

  // ---- the cache object ----

  lemma DeletedOnce(entries: OrderedMap<Statement>, key: string)
    requires entries.Valid()
    ensures entries.Delete(key).Valid() && key !in entries.Delete(key).values
    ensures key !in entries.values ==> entries.Delete(key) == entries
  {
    DeleteKeepsValid(entries, key);
    if key !in entries.values {
      WithoutAbsent(entries.order, key);
    }
  }

  lemma FirstDeleted(order: seq<string>)
    requires order != []
    ensures Without(order, order[0]) == order[1..]
  {
  }

  /** The statement came out of a prepare call for this very text. */
  predicate IsPreparedFrom(prepared: seq<string>, statement: Statement, sql: string) {
    statement.sql == sql && statement.call < |prepared| && prepared[statement.call] == sql
  }

  ghost predicate AllPrepared(prepared: seq<string>, values: map<string, Statement>) {
    forall sql | sql in values :: IsPreparedFrom(prepared, values[sql], sql)
  }

  lemma AllPreparedWith(prepared: seq<string>, sql: string, statement: Statement,
                        before: map<string, Statement>, after: map<string, Statement>)
    requires AllPrepared(prepared, before) && IsPreparedFrom(prepared, statement, sql)
    requires forall k | k in after && k != sql :: k in before && after[k] == before[k]
    requires sql in after ==> after[sql] == statement
    ensures AllPrepared(prepared, after)
  {
    forall k | k in after
      ensures IsPreparedFrom(prepared, after[k], k)
    {
      if k != sql {
        assert IsPreparedFrom(prepared, before[k], k);
      }
    }
  }

  function Renewed(entries: OrderedMap<Statement>, sql: string, statement: Statement): OrderedMap<Statement> {
    entries.Delete(sql).Add(sql, statement)
  }

  function Trimmed(entries: OrderedMap<Statement>, max: nat): OrderedMap<Statement> {
    if |entries.order| > max then entries.Delete(entries.order[0]) else entries
  }

  lemma UsedOnce(entries: OrderedMap<Statement>, asked: seq<string>, max: nat, sql: string, statement: Statement)
    requires entries.Valid() && max > 0 && MostRecent(asked, max, entries.order)
    ensures var m := Trimmed(Renewed(entries, sql, statement), max);
            && m.Valid() && MostRecent(asked + [sql], max, m.order)
            && (forall k | k in m.values && k != sql :: k in entries.values && m.values[k] == entries.values[k])
            && (sql in m.values ==> m.values[sql] == statement)
  {
    hide MostRecent, Without, Distinct, OrderedMap.Valid;
    OneMoreQuery(asked, max, entries.order, sql);
    FirstDeleted(Without(entries.order, sql) + [sql]);
    DeletedOnce(entries, sql);
    AddKeepsValid(entries.Delete(sql), sql, statement);
    var m := Renewed(entries, sql, statement);
    DeletedOnce(m, m.order[0]);
  }

  lemma InOrder(entries: OrderedMap<Statement>, key: string)
    requires entries.Valid()
    ensures key in entries.order <==> key in entries.values
  {
  }

  /** A cache of size 0 keeps nothing. */
  lemma NoneKept(asked: seq<string>, kept: seq<string>, sql: string)
    requires MostRecent(asked, 0, kept)
    ensures kept == [] && Without(kept, sql) == [] && MostRecent(asked + [sql], 0, [])
  {
  }

  class Cache {
    const max: nat
    var entries: OrderedMap<Statement>
    var closed: bool
    /** The texts of the database's prepare calls, oldest first. */
    var prepared: seq<string>
    /** Every text a query found or prepared a statement for, oldest first. */
    ghost var asked: seq<string>

    ghost predicate Valid()
      reads this
    {
      && entries.Valid()
      && AllPrepared(prepared, entries.values)
      && (if closed then entries.order == [] else MostRecent(asked, max, entries.order))
    }

    constructor (max: nat)
      ensures Valid() && this.max == max && asked == [] && prepared == [] && !closed
    {
      this.max, entries, closed, prepared := max, Empty(), false, [];
      asked := [];
    }

    /** Puts the statement last, and drops the first one when there is one too many. */
    method Keep(ghost before: OrderedMap<Statement>, sql: string, statement: Statement)
      requires before.Valid() && entries == before.Delete(sql) && !closed
      requires MostRecent(asked, max, before.order) && AllPrepared(prepared, before.values)
      requires IsPreparedFrom(prepared, statement, sql)
      modifies this`entries, this`asked
      ensures Valid() && asked == old(asked) + [sql]
    {
      hide MostRecent, Without, OrderedMap.Valid, Distinct, LastUse, AllPrepared;
      if max > 0 {
        UsedOnce(before, asked, max, sql, statement);
        entries := entries.Add(sql, statement);
        if |entries.order| > max {
          entries := entries.Delete(entries.order[0]);
        }
      } else {
        NoneKept(asked, before.order, sql);
        DeletedOnce(before, sql);
      }
      AllPreparedWith(prepared, sql, statement, before.values, entries.values);
      asked := asked + [sql];
    }

    /**
     * Finds or prepares the statement for a text. The database's prepare is called exactly when
     * the text is not among the most recent ones, and may refuse the text.
     */
    method Query(sql: string, prepares: bool) returns (r: Result<Statement, Trouble>)
      requires Valid()
      modifies this
      ensures Valid() && closed == old(closed)
      ensures r == Failure(StoreClosed) <==> old(closed)
      ensures r == Failure(PrepareFailed) <==> !old(closed) && sql !in old(entries.order) && !prepares
      ensures r.Failure? ==> entries == old(entries) && asked == old(asked) && prepared == old(prepared)
      ensures r.Success? ==> IsPreparedFrom(prepared, r.value, sql) && asked == old(asked) + [sql]
      ensures r.Success? ==> prepared == old(prepared) + if sql in old(entries.order) then [] else [sql]
    {
      if closed {
        return Failure(StoreClosed);
      }
      hide MostRecent, Without, OrderedMap.Valid, Distinct, LastUse, AllPrepared;
      var found := if sql in entries.values then Some(entries.values[sql]) else None;
      InOrder(entries, sql);
      DeletedOnce(entries, sql);
      ghost var before := entries;
      entries := entries.Delete(sql);
      var statement: Statement;
      if found.Some? {
        statement := found.value;
      } else {
        if !prepares {
          return Failure(PrepareFailed);
        }
        statement := Statement(sql, |prepared|);
        prepared := prepared + [sql];
      }
      Keep(before, sql, statement);
      return Success(statement);
    }

    method Close()
      requires Valid()
      modifies this
      ensures Valid() && closed && entries == Empty()
      ensures asked == old(asked) && prepared == old(prepared)
    {
      closed := true;
      entries := Empty();
    }
  }
}
