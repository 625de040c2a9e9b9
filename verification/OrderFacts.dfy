/** What callers of `createdTablesInOrder` may rely on: completeness, order, and when it refuses. */
module OrderFacts {
  import opened Sequences
  import opened Snapshots
  import opened TableOrder
  import opened CreationOrder

  /** Every table stands after the other listed tables its foreign keys name. */
  ghost predicate TargetsFirst(tables: seq<Table>) {
    forall i, fk | 0 <= i < |tables| && fk in tables[i].foreignKeys && fk.targetTable != tables[i].name
                   && fk.targetTable in Elements(Names(tables)) ::
      fk.targetTable in Elements(Names(tables)[..i])
  }

  lemma SizesAdd(names: seq<string>, a: seq<string>, b: seq<string>)
    requires Distinct(names) && Distinct(a) && Distinct(b)
    requires Elements(a) <= Elements(names) && Elements(b) == Elements(names) - Elements(a)
    ensures |names| == |a| + |b|
  {
    CardinalityOfDistinct(names);
    CardinalityOfDistinct(a);
    CardinalityOfDistinct(b);
    assert |Elements(names) - Elements(a)| == |Elements(names)| - |Elements(a)|;
  }

  lemma LeftOver(names: seq<string>, order: seq<string>, rank: string -> real) returns (cyclic: seq<string>)
    requires Collates(rank) && Distinct(names) && Distinct(order) && Elements(order) <= Elements(names)
    ensures cyclic == Sort(Excluding(Elements(order), names), rank)
    ensures Distinct(cyclic) && Elements(cyclic) == Elements(names) - Elements(order)
    ensures |names| == |order| + |cyclic|
  {
    var left := Excluding(Elements(order), names);
    ExcludingMembers(Elements(order), names);
    SortSorts(left, rank);
    cyclic := Sort(left, rank);
    SizesAdd(names, order, cyclic);
  }

  lemma GraphKeys(created: seq<Table>)
    ensures ReferenceGraph(created).Keys == IndexBy(TableName, created).Keys == Elements(Names(created))
  {
    KeysAreNames(created);
  }

  lemma GreedyOrder(created: seq<Table>, rank: string -> real) returns (order: seq<string>, cyclic: seq<string>)
    requires Collates(rank) && DistinctBy(TableName, created)
    ensures order == Greedy(ReferenceGraph(created), rank, [])
    ensures cyclic == Sort(Excluding(Elements(order), Names(created)), rank)
    ensures Distinct(order) && Elements(order) <= Elements(Names(created))
    ensures Distinct(cyclic) && Elements(cyclic) == Elements(Names(created)) - Elements(order)
    ensures |created| == |order| + |cyclic|
  {
    order := Greedy(ReferenceGraph(created), rank, []);
    GreedyFollows(ReferenceGraph(created), rank, []);
    GraphKeys(created);
    NamesDistinct(created);
    cyclic := LeftOver(Names(created), order, rank);
  }

  lemma DistinctUnion(a: seq<string>, b: seq<string>)
    requires Distinct(a) && Distinct(b) && Elements(a) !! Elements(b)
    ensures Distinct(a + b) && Elements(a + b) == Elements(a) + Elements(b)
  {
    assert forall i | 0 <= i < |a| :: a[i] in Elements(a);
    assert forall i | 0 <= i < |b| :: b[i] in Elements(b);
  }

  /** The names an arrangement lists, and the tables it lists them with. */
  lemma ArrangedNames(created: seq<Table>, rank: string -> real, refuse: bool)
    requires Collates(rank) && DistinctBy(TableName, created) && Arrange(created, rank, refuse).Success?
    ensures var r := Arrange(created, rank, refuse).value;
            && Distinct(Names(r)) && Elements(Names(r)) == Elements(Names(created))
            && r == Pick(IndexBy(TableName, created), Names(r))
            && (refuse ==> Names(r) == Greedy(ReferenceGraph(created), rank, []))
  {
    var order, cyclic := GreedyOrder(created, rank);
    GraphKeys(created);
    DistinctUnion(order, cyclic);
    if |order| == |created| {
      assert cyclic == [] && order + cyclic == order;
    }
    PickNames(created, order + cyclic);
  }

  lemma PickedMembers(created: seq<Table>, names: seq<string>, t: Table)
    requires DistinctBy(TableName, created) && Elements(names) == Elements(Names(created))
    ensures t in Pick(IndexBy(TableName, created), names) <==> t in created
  {
    var byName := IndexBy(TableName, created);
    var r := Pick(byName, names);
    KeysAreNames(created);
    PickAll(byName, names);
    if t in created {
      IndexByUnique(TableName, created, t);
      assert t.name in Elements(names);
      var i :| 0 <= i < |names| && names[i] == t.name;
      assert r[i] == byName[t.name];
    }
    if t in r {
      var i :| 0 <= i < |r| && r[i] == t;
      IndexByFinds(TableName, created, names[i]);
    }
  }

  /** The result lists exactly the tables that are new, each once. */
  lemma InOrderMembers(listed: set<string>, tables: seq<Table>, rank: string -> real, refuse: bool, t: Table)
    requires Collates(rank) && DistinctBy(TableName, tables)
    requires InOrder(listed, tables, rank, refuse).Success?
    ensures t in InOrder(listed, tables, rank, refuse).value <==> t in tables && t.name !in listed
  {
    var created := Unlisted(listed, tables);
    UnlistedDistinct(listed, tables);
    UnlistedMembers(listed, tables, t);
    ArrangedNames(created, rank, refuse);
    PickedMembers(created, Names(Arrange(created, rank, refuse).value), t);
  }

  lemma InOrderDistinct(listed: set<string>, tables: seq<Table>, rank: string -> real, refuse: bool)
    requires Collates(rank)
    requires InOrder(listed, tables, rank, refuse).Success?
    ensures Distinct(Names(InOrder(listed, tables, rank, refuse).value))
  {
    UnlistedDistinct(listed, tables);
    ArrangedNames(Unlisted(listed, tables), rank, refuse);
  }

  lemma PickedTargetsFirst(created: seq<Table>, names: seq<string>)
    requires DistinctBy(TableName, created) && Elements(names) == Elements(Names(created))
    requires Follows(ReferenceGraph(created), names)
    ensures TargetsFirst(Pick(IndexBy(TableName, created), names))
  {
    var byName := IndexBy(TableName, created);
    var r := Pick(byName, names);
    KeysAreNames(created);
    PickAll(byName, names);
    PickNames(created, names);
    forall i, fk | 0 <= i < |r| && fk in r[i].foreignKeys && fk.targetTable != r[i].name
      && fk.targetTable in Elements(names)
      ensures fk.targetTable in Elements(names[..i])
    {
      IndexByFinds(TableName, created, names[i]);
      assert fk.targetTable in Targets(r[i], byName.Keys);
      assert fk.targetTable in ReferenceGraph(created)[names[i]];
    }
  }

  /** A caller that refuses cycles gets targets before the tables that reference them. */
  lemma InOrderTargetsFirst(listed: set<string>, tables: seq<Table>, rank: string -> real)
    requires Collates(rank)
    requires InOrder(listed, tables, rank, true).Success?
    ensures TargetsFirst(InOrder(listed, tables, rank, true).value)
  {
    var created := Unlisted(listed, tables);
    UnlistedDistinct(listed, tables);
    ArrangedNames(created, rank, true);
    GreedyFollows(ReferenceGraph(created), rank, []);
    PickedTargetsFirst(created, Names(Arrange(created, rank, true).value));
  }

  lemma ArrangeRefusesExactlyCycles(created: seq<Table>, rank: string -> real)
    requires Collates(rank) && DistinctBy(TableName, created)
    ensures Arrange(created, rank, true).Failure? <==> exists c :: Cycle(ReferenceGraph(created), c)
  {
    var g := ReferenceGraph(created);
    NamesDistinct(created);
    GraphKeys(created);
    ReferenceGraphIsValid(created);
    LeftOverIffCycle(g, rank);
    var order, cyclic := GreedyOrder(created, rank);
    assert |g| == |g.Keys| == |created|;
    assert Arrange(created, rank, true).Failure? <==> |order| != |created|;
  }

  /** It refuses exactly when the new tables' references, self-references aside, contain a cycle. */
  lemma RefusesExactlyCycles(listed: set<string>, tables: seq<Table>, rank: string -> real)
    requires Collates(rank)
    ensures InOrder(listed, tables, rank, true).Failure? <==>
            exists c :: Cycle(ReferenceGraph(Unlisted(listed, tables)), c)
  {
    hide Cycle, Arrange, ReferenceGraph, Unlisted, DistinctBy, Collates;
    UnlistedDistinct(listed, tables);
    ArrangeRefusesExactlyCycles(Unlisted(listed, tables), rank);
    assert InOrder(listed, tables, rank, true) == Arrange(Unlisted(listed, tables), rank, true);
    if InOrder(listed, tables, rank, true).Failure? {
      var c :| Cycle(ReferenceGraph(Unlisted(listed, tables)), c);
      assert exists c :: Cycle(ReferenceGraph(Unlisted(listed, tables)), c);
    }
  }

  /** Among all orders that put targets first, the result is the alphabetically least. */
  lemma InOrderIsLeast(listed: set<string>, tables: seq<Table>, rank: string -> real, q: seq<string>)
    requires Collates(rank)
    requires Follows(ReferenceGraph(Unlisted(listed, tables)), q)
    requires Elements(q) == Elements(Names(Unlisted(listed, tables)))
    ensures InOrder(listed, tables, rank, true).Success?
    ensures var names := Names(InOrder(listed, tables, rank, true).value); names == q || Precedes(names, q, rank)
  {
    var created := Unlisted(listed, tables);
    var g := ReferenceGraph(created);
    GraphKeys(created);
    UnlistedDistinct(listed, tables);
    ArrangeRefusesExactlyCycles(created, rank);
    forall c
      ensures !Cycle(g, c)
    {
      if Cycle(g, c) {
        assert c[0] in g.Keys;
        assert c[0] in Elements(q);
        CycleIsNeverPlaced(g, q, c);
      }
    }
    ArrangedNames(created, rank, true);
    GreedyIsLeast(g, rank, q);
  }

  /** The tables references lead from to a cycle, in the order of their names. */
  ghost predicate AreCyclic(created: seq<Table>, rank: string -> real, names: seq<string>) {
    && Ascending(names, rank)
    && forall n :: n in names <==> n in Elements(Names(created)) && LeadsToCycle(ReferenceGraph(created), n)
  }

  lemma LeftOverAreCyclic(created: seq<Table>, rank: string -> real) returns (order: seq<string>, cyclic: seq<string>)
    requires Collates(rank) && DistinctBy(TableName, created)
    ensures order == Greedy(ReferenceGraph(created), rank, []) && Follows(ReferenceGraph(created), order)
    ensures cyclic == Sort(Excluding(Elements(order), Names(created)), rank) && AreCyclic(created, rank, cyclic)
    ensures |created| == |order| + |cyclic|
  {
    var g := ReferenceGraph(created);
    order, cyclic := GreedyOrder(created, rank);
    GraphKeys(created);
    ReferenceGraphIsValid(created);
    NothingPlaced(g);
    GreedyFollows(g, rank, []);
    NamesDistinct(created);
    ExcludingMembers(Elements(order), Names(created));
    SortSorts(Excluding(Elements(order), Names(created)), rank);
    forall n
      ensures n in cyclic <==> n in Elements(Names(created)) && LeadsToCycle(g, n)
    {
      assert n in cyclic <==> n in Elements(cyclic);
      if n in g {
        LeftOverWhen(g, order, n);
      }
    }
  }

  /** A refusal names just the tables from which references lead to a cycle, in the order of their names. */
  lemma RefusalNamesTables(listed: set<string>, tables: seq<Table>, rank: string -> real)
    requires Collates(rank) && InOrder(listed, tables, rank, true).Failure?
    ensures AreCyclic(Unlisted(listed, tables), rank, InOrder(listed, tables, rank, true).error)
  {
    UnlistedDistinct(listed, tables);
    var order, cyclic := LeftOverAreCyclic(Unlisted(listed, tables), rank);
  }

  /** A caller that does not refuse gets those tables last, after all others with their targets first. */
  lemma CyclicComeLast(listed: set<string>, tables: seq<Table>, rank: string -> real)
    requires Collates(rank)
    ensures InOrder(listed, tables, rank, false).Success?
    ensures var created := Unlisted(listed, tables);
            var names := Names(InOrder(listed, tables, rank, false).value);
            exists k :: 0 <= k <= |names| && Follows(ReferenceGraph(created), names[..k])
                        && AreCyclic(created, rank, names[k..])
  {
    var created := Unlisted(listed, tables);
    UnlistedDistinct(listed, tables);
    var order, cyclic := LeftOverAreCyclic(created, rank);
    var _, _ := GreedyOrder(created, rank);
    GraphKeys(created);
    PickNames(created, order + cyclic);
    assert (order + cyclic)[..|order|] == order && (order + cyclic)[|order|..] == cyclic;
    if |order| == |created| {
      assert cyclic == [] && order + cyclic == order;
    }
  }
}
