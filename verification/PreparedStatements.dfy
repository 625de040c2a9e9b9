/**
 * The PostgreSQL store's named statements on one connection. Every await may fail or be followed
 * by an abort, with its effect on the server done or not, and the server may drop statements at
 * any time.
 */
module PreparedStatements {
  import opened Wrappers
  import opened Sequences
  import opened OrderedMaps

  /** A text sent to the server under a name; names are numbered within the connection's namespace. */
  datatype Sent = Sent(name: nat, sql: string)

  datatype Answer = Ran(name: Option<nat>) | Failed

  // ---- the server ----

  /** The server's named statements under this namespace, and how many calls failed or were aborted. */
  class Server {
    var statements: set<nat>
    ghost var faults: nat

    constructor ()
      ensures statements == {} && faults == 0
    {
      statements := {};
      faults := 0;
    }

    /** The caller's signal, looked at between two calls. */
    method Aborts() returns (aborted: bool)
      modifies this`faults
      ensures faults == old(faults) + if aborted then 1 else 0
    {
      aborted := *;
      if aborted {
        faults := faults + 1;
      }
    }

    method Drop()
      modifies this`statements
      ensures statements <= old(statements)
    {
      var lost: set<nat> := *;
      statements := statements - lost;
    }

    /** SELECT name FROM pg_prepared_statements: a truthful answer, or a failure. */
    method Lists(name: nat) returns (present: Option<bool>)
      modifies this
      ensures statements <= old(statements)
      ensures present == Some(false) ==> name !in statements
      ensures faults == old(faults) + if present.None? then 1 else 0
    {
      Drop();
      var answers: bool := *;
      if answers {
        return Some(name in statements);
      }
      faults := faults + 1;
      return None;
    }

    /** DEALLOCATE: when it fails, the statement may be gone or still there. */
    method Deallocate(name: nat) returns (ok: bool)
      modifies this
      ensures statements <= old(statements)
      ensures ok ==> name !in statements
      ensures faults == old(faults) + if ok then 0 else 1
    {
      Drop();
      var happens: bool := *;
      var reported: bool := *;
      if happens {
        statements := statements - {name};
      }
      ok := happens && reported;
      if !ok {
        faults := faults + 1;
      }
    }

    /** A named query: when it fails, the statement may or may not have been prepared. */
    method Run(name: Option<nat>) returns (ok: bool)
      modifies this
      ensures statements <= old(statements) + if name.Some? then {name.value} else {}
      ensures faults == old(faults) + if ok then 0 else 1
    {
      Drop();
      var prepares: bool := *;
      if prepares && name.Some? {
        statements := statements + {name.value};
      }
      ok := *;
      if !ok {
        faults := faults + 1;
      }
    }
  }

  // ---- which texts keep their names ----

  /** The entries eviction may take, oldest first: all but the text being asked for, unless naming is off. */
  function Evictable(order: seq<string>, sql: string, max: nat): seq<string> {
    if max == 0 then order else Without(order, sql)
  }

  /** The most recent of the other texts that fit beside the one being asked for. */
  function Fitting(others: seq<string>, max: nat): seq<string> {
    if max == 0 then [] else if |others| > max - 1 then others[|others| - (max - 1)..] else others
  }

  /** The texts with names once a call completes. */
  function KeptTexts(order: seq<string>, sql: string, max: nat): seq<string> {
    if max == 0 then [] else Fitting(Without(order, sql), max) + [sql]
  }

  function Oldest(order: seq<string>, sql: string, max: nat): Option<string> {
    if order == [] then None
    else if max == 0 || order[0] != sql then Some(order[0])
    else if |order| > 1 then Some(order[1])
    else None
  }

  lemma EvictOldest(order: seq<string>, sql: string, max: nat)
    requires Distinct(order)
    ensures match Oldest(order, sql, max)
            case None => Evictable(order, sql, max) == []
            case Some(oldest) =>
              var rest := Without(order, oldest);
              && oldest in order && |rest| == |order| - 1 && (max > 0 ==> oldest != sql)
              && Evictable(order, sql, max) != [] && Evictable(rest, sql, max) == Evictable(order, sql, max)[1..]
              && (max > 0 ==> (sql in rest <==> sql in order))
  {
    if order != [] && max > 0 && order[0] == sql {
      if |order| > 1 {
        WithoutAt(order, 1);
        assert Without(order, order[1]) == [sql] + order[2..];
        assert Without(order, sql) == order[1..];
        assert order[1] == order[1..][0];
      }
    }
    if Oldest(order, sql, max).Some? {
      WithoutKeepsTheRest(order, Oldest(order, sql, max).value);
    }
  }

  lemma EvictableCount(order: seq<string>, sql: string, max: nat)
    requires Distinct(order)
    ensures |Evictable(order, sql, max)| == if max > 0 && sql in order then |order| - 1 else |order|
  {
    WithoutKeepsTheRest(order, sql);
  }

  /** How many other texts fit. */
  function Room(max: nat): nat { if max == 0 then 0 else max - 1 }

  lemma FittingSuffix(others: seq<string>, max: nat, k: nat)
    requires k <= |others| && |others| - k <= Room(max) && (k > 0 ==> |others| - k >= Room(max))
    ensures others[k..] == Fitting(others, max)
  {
  }

  // ---- names, texts and the server ----

  ghost predicate NamesMatch(names: OrderedMap<nat>, texts: seq<string>) {
    forall sql | sql in names.values :: names.values[sql] < |texts| && texts[names.values[sql]] == sql
  }

  /** Every statement on the server is still in the map of names. */
  ghost predicate NoLeak(statements: set<nat>, names: OrderedMap<nat>) {
    forall n | n in statements :: exists sql :: sql in names.values && names.values[sql] == n
  }

  ghost predicate SentAsMade(sent: seq<Sent>, texts: seq<string>) {
    forall i | 0 <= i < |sent| :: sent[i].name < |texts| && texts[sent[i].name] == sent[i].sql
  }

  /** Forgetting a name is safe once its statement is not on the server. */
  lemma ForgetOne(names: OrderedMap<nat>, texts: seq<string>, statements: set<nat>, sql: string)
    requires names.Valid() && NamesMatch(names, texts) && NoLeak(statements, names)
    requires sql in names.values && names.values[sql] !in statements
    ensures names.Delete(sql).Valid() && NamesMatch(names.Delete(sql), texts) && NoLeak(statements, names.Delete(sql))
  {
    DeleteKeepsValid(names, sql);
    forall n | n in statements
      ensures exists k :: k in names.Delete(sql).values && names.Delete(sql).values[k] == n
    {
      var k :| k in names.values && names.values[k] == n;
      assert k in names.Delete(sql).values;
    }
  }

  lemma FewerStatements(names: OrderedMap<nat>, before: set<nat>, after: set<nat>)
    requires NoLeak(before, names) && after <= before
    ensures NoLeak(after, names)
  {
  }

  function Texts(texts: seq<string>, names: OrderedMap<nat>, sql: string): seq<string> {
    if sql in names.values then texts else texts + [sql]
  }

  /** A name joins the map before its statement can reach the server. */
  lemma NameOne(names: OrderedMap<nat>, texts: seq<string>, statements: set<nat>, sql: string, name: nat)
    requires names.Valid() && NamesMatch(names, texts) && NoLeak(statements, names)
    requires name == if sql in names.values then names.values[sql] else |texts|
    ensures var m := names.Delete(sql).Add(sql, name);
            m.Valid() && NamesMatch(m, Texts(texts, names, sql)) && NoLeak(statements + {name}, m)
  {
    DeleteKeepsValid(names, sql);
    WithoutKeepsTheRest(names.order, sql);
    AddKeepsValid(names.Delete(sql), sql, name);
    var m := names.Delete(sql).Add(sql, name);
    forall n | n in statements + {name}
      ensures exists k :: k in m.values && m.values[k] == n
    {
      if n == name {
        assert sql in m.values;
      } else {
        var k :| k in names.values && names.values[k] == n;
        assert k in m.values;
      }
    }
  }

  /** One more named query: under the text's own name if it had one, else under a name never sent before. */
  ghost predicate NextSent(sent: seq<Sent>, after: seq<Sent>, sql: string, names: OrderedMap<nat>) {
    && |after| == |sent| + 1 && sent <= after && after[|sent|].sql == sql
    && if sql in names.values then after[|sent|].name == names.values[sql]
       else forall x | x in sent :: x.name != after[|sent|].name
  }

  lemma SendOne(sent: seq<Sent>, names: OrderedMap<nat>, texts: seq<string>, sql: string, name: nat)
    requires NamesMatch(names, texts) && SentAsMade(sent, texts)
    requires name == if sql in names.values then names.values[sql] else |texts|
    ensures SentAsMade(sent + [Sent(name, sql)], Texts(texts, names, sql))
    ensures NextSent(sent, sent + [Sent(name, sql)], sql, names)
  {
  }

  lemma EachNameOneText(sent: seq<Sent>, texts: seq<string>)
    requires SentAsMade(sent, texts)
    ensures forall i, j | 0 <= i < |sent| && 0 <= j < |sent| && sent[i].name == sent[j].name ::
              sent[i].sql == sent[j].sql
  {
  }

  lemma KeptFits(order: seq<string>, sql: string, max: nat)
    ensures |KeptTexts(order, sql, max)| <= max
  {
  }

  /** The end of a list, of at most some length. */
  ghost predicate IsEnd(some: seq<string>, all: seq<string>, n: nat) {
    && |some| == (if |all| < n then |all| else n)
    && some == all[|all| - |some|..]
  }

  lemma FittingIsEnd(others: seq<string>, max: nat)
    requires max > 0
    ensures IsEnd(Fitting(others, max), others, max - 1)
  {
  }

  lemma KeptInTwo(order: seq<string>, sql: string, max: nat)
    requires max > 0
    ensures var kept := KeptTexts(order, sql, max);
            |kept| > 0 && kept[|kept| - 1] == sql && kept[..|kept| - 1] == Fitting(Without(order, sql), max)
  {
  }

  lemma OthersAre(order: seq<string>, sql: string)
    requires Distinct(order)
    ensures sql !in order ==> Without(order, sql) == order
    ensures forall i | 0 <= i < |order| && order[i] == sql :: Without(order, sql) == order[..i] + order[i + 1..]
  {
    if sql in order {
      var i :| 0 <= i < |order| && order[i] == sql;
      WithoutAt(order, i);
    } else {
      WithoutAbsent(order, sql);
    }
  }

  /**
   * Which texts keep their names when a call completes: the one asked for, last; and before it, in the order
   * they were last asked for, as many of the others as fit, the most recent ones.
   */
  lemma KeptAreMostRecent(order: seq<string>, sql: string, max: nat)
    requires Distinct(order)
    ensures max == 0 ==> KeptTexts(order, sql, max) == []
    ensures max > 0 ==>
              var kept := KeptTexts(order, sql, max);
              && |kept| > 0 && kept[|kept| - 1] == sql
              && (sql !in order ==> IsEnd(kept[..|kept| - 1], order, max - 1))
              && forall i | 0 <= i < |order| && order[i] == sql ::
                   IsEnd(kept[..|kept| - 1], order[..i] + order[i + 1..], max - 1)
  {
    hide IsEnd, Fitting, Without;
    if max > 0 {
      KeptInTwo(order, sql, max);
      FittingIsEnd(Without(order, sql), max);
      OthersAre(order, sql);
    }
  }

  lemma SameChoice(sent: seq<Sent>, after: seq<Sent>, sql: string, names: OrderedMap<nat>, names': OrderedMap<nat>)
    requires sql in names.values <==> sql in names'.values
    requires sql in names.values ==> names.values[sql] == names'.values[sql]
    ensures NextSent(sent, after, sql, names) == NextSent(sent, after, sql, names')
  {
  }

  // ---- one connection ----

  class Connection {
    const server: Server
    var names: OrderedMap<nat>
    var sequence: nat
    /** The text each name was made for. */
    ghost var texts: seq<string>
    /** Every named query, oldest first. */
    ghost var sent: seq<Sent>

    ghost predicate Valid()
      reads this, server
    {
      && names.Valid() && sequence == |texts|
      && NamesMatch(names, texts)
      && NoLeak(server.statements, names)
      && SentAsMade(sent, texts)
    }

    constructor ()
      ensures Valid() && fresh(server) && names == Empty() && sent == []
    {
      server := new Server();
      names, sequence := Empty(), 0;
      texts, sent := [], [];
    }

    /** Asks the server for the statement, deallocates it if it is there, then drops the name. */
    method Forget(sql: string) returns (done: bool)
      requires Valid() && sql in names.values
      modifies this`names, server
      ensures Valid()
      ensures names == if done then old(names).Delete(sql) else old(names)
      ensures server.faults >= old(server.faults) && (!done ==> server.faults > old(server.faults))
    {
      var name := names.values[sql];
      ghost var before := server.statements;
      var present := server.Lists(name);
      FewerStatements(names, before, server.statements);
      var aborted := server.Aborts();
      if present.None? || aborted {
        return false;
      }
      if present.value {
        before := server.statements;
        var gone := server.Deallocate(name);
        FewerStatements(names, before, server.statements);
        if !gone {
          return false;
        }
      }
      ForgetOne(names, texts, server.statements, sql);
      names := names.Delete(sql);
      done := true;
    }

    /** Makes room: deallocates and forgets the oldest names until the limit is met. */
    method Evict(sql: string, max: nat) returns (done: bool)
      requires Valid()
      modifies this`names, server
      ensures Valid()
      ensures forall k | k in names.values :: k in old(names.values) && names.values[k] == old(names.values[k])
      ensures max > 0 ==> (sql in names.values <==> sql in old(names.values))
      ensures server.faults >= old(server.faults) && (!done ==> server.faults > old(server.faults))
      ensures done ==> Evictable(names.order, sql, max) == Fitting(Evictable(old(names.order), sql, max), max)
    {
      hide NamesMatch, NoLeak, SentAsMade, Without, Distinct, Evictable, Fitting;
      var desired := max - if max > 0 && sql !in names.values then 1 else 0;
      ghost var others, k := Evictable(names.order, sql, max), 0;
      EvictableCount(names.order, sql, max);
      while |names.order| > desired
        invariant Valid()
        invariant forall k | k in names.values :: k in old(names.values) && names.values[k] == old(names.values[k])
        invariant max > 0 ==> (sql in names.values <==> sql in old(names.values))
        invariant server.faults >= old(server.faults)
        invariant k <= |others| && Evictable(names.order, sql, max) == others[k..]
        invariant k > 0 ==> |others| - k >= Room(max)
        decreases |names.order|
      {
        EvictOldest(names.order, sql, max);
        EvictableCount(names.order, sql, max);
        var oldest := Oldest(names.order, sql, max);
        if oldest.None? {
          break;
        }
        var forgotten := Forget(oldest.value);
        if !forgotten {
          return false;
        }
        k := k + 1;
        var aborted := server.Aborts();
        if aborted {
          return false;
        }
      }
      EvictableCount(names.order, sql, max);
      FittingSuffix(others, max, k);
      done := true;
    }

    /** Names the text unless naming is off, and runs it. */
    method RunAs(sql: string, max: nat) returns (r: Answer)
      requires Valid()
      modifies this, server
      ensures Valid() && old(texts) <= texts && old(sent) <= sent
      ensures max == 0 ==> names == old(names) && sent == old(sent)
      ensures max > 0 ==> && names.order == Without(old(names.order), sql) + [sql] && sql in names.values
                          && names.values[sql]
                             == (if sql in old(names.values) then old(names.values[sql]) else |old(texts)|)
                          && sent == old(sent) + [Sent(names.values[sql], sql)]
      ensures r.Failed? ==> server.faults > old(server.faults)
      ensures r.Ran? ==> r.name == if max == 0 then None else Some(names.values[sql])
      ensures max > 0 ==> NextSent(old(sent), sent, sql, old(names))
    {
      hide NamesMatch, NoLeak, SentAsMade, NextSent, Without, Distinct, OrderedMap.Valid;
      if max == 0 {
        var aborted := server.Aborts();
        if aborted {
          return Failed;
        }
        ghost var before := server.statements;
        var ok := server.Run(None);
        FewerStatements(names, before, server.statements);
        return if ok then Ran(None) else Failed;
      }
      var name: nat;
      NameOne(names, texts, server.statements, sql, if sql in names.values then names.values[sql] else sequence);
      SendOne(sent, names, texts, sql, if sql in names.values then names.values[sql] else sequence);
      texts := Texts(texts, names, sql);
      if sql in names.values {
        name := names.values[sql];
      } else {
        name := sequence;
        sequence := sequence + 1;
      }
      names := names.Delete(sql).Add(sql, name);
      sent := sent + [Sent(name, sql)];
      ghost var before := server.statements + {name};
      var ok := server.Run(Some(name));
      FewerStatements(names, before, server.statements);
      return if ok then Ran(Some(name)) else Failed;
    }

    /**
     * One query with a limit of its own. On completion exactly the most recent texts that fit keep
     * their names; whatever happens, no statement on the server is forgotten, and a text without a
     * name is sent under one that was never sent before. It fails only if a call failed or was aborted.
     */
    method Query(sql: string, max: nat) returns (r: Answer)
      requires Valid()
      modifies this, server
      ensures Valid() && old(texts) <= texts && old(sent) <= sent
      ensures r.Ran? ==> names.order == KeptTexts(old(names.order), sql, max) && |names.order| <= max
      ensures r.Ran? && max == 0 ==> r.name == None && sent == old(sent)
      ensures r.Ran? && max > 0 ==> && r.name.Some? && names.values[sql] == r.name.value
                                    && sent == old(sent) + [Sent(r.name.value, sql)]
      ensures r.Ran? && sql in old(names.values) && max > 0 ==> r.name == Some(old(names.values[sql]))
      ensures r.Ran? && sql !in old(names.values) && max > 0 ==> r.name == Some(|old(texts)|)
      ensures sent == old(sent) || NextSent(old(sent), sent, sql, old(names))
      ensures forall i, j | 0 <= i < |sent| && 0 <= j < |sent| && sent[i].name == sent[j].name ::
                sent[i].sql == sent[j].sql
      ensures r.Failed? ==> server.faults > old(server.faults)
    {
      hide NamesMatch, NoLeak, SentAsMade, NextSent, Without, Distinct, OrderedMap.Valid;
      EachNameOneText(sent, texts);
      var aborted := server.Aborts();
      if aborted {
        return Failed;
      }
      var evicted := Evict(sql, max);
      if !evicted {
        return Failed;
      }
      KeptFits(old(names.order), sql, max);
      ghost var evictable := names;
      r := RunAs(sql, max);
      EachNameOneText(sent, texts);
      if max > 0 {
        SameChoice(old(sent), sent, sql, evictable, old(names));
      }
    }
  }
}
