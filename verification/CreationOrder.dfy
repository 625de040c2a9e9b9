/** `createdTablesInOrder`: the queue that computes the order `TableOrder.Greedy` describes. */
module CreationOrder {
  import opened Wrappers
  import opened Sequences
  import opened Snapshots
  import opened TableOrder

  function NotListed(listed: set<string>, tables: seq<Table>): seq<Table>
  {
    if tables == [] then []
    else if tables[0].name in listed then NotListed(listed, tables[1..])
    else [tables[0]] + NotListed(listed, tables[1..])
  }

  /** The tables a map keyed by name keeps of those not listed. */
  function Unlisted(listed: set<string>, tables: seq<Table>): seq<Table> {
    Merged(TableName, NotListed(listed, tables))
  }

  function Names(tables: seq<Table>): (names: seq<string>)
    ensures |names| == |tables|
    ensures forall i | 0 <= i < |tables| :: names[i] == tables[i].name
  {
    if tables == [] then [] else [tables[0].name] + Names(tables[1..])
  }

  function Targets(t: Table, created: set<string>): set<string> {
    set fk | fk in t.foreignKeys && fk.targetTable != t.name && fk.targetTable in created :: fk.targetTable
  }

  function ReferenceGraph(created: seq<Table>): Graph {
    var byName := IndexBy(TableName, created);
    map n | n in byName :: Targets(byName[n], byName.Keys)
  }

  function Pick(byName: map<string, Table>, names: seq<string>): seq<Table>
  {
    if names == [] then []
    else if names[0] in byName then [byName[names[0]]] + Pick(byName, names[1..])
    else Pick(byName, names[1..])
  }

  function Excluding(placed: set<string>, names: seq<string>): seq<string>
  {
    if names == [] then []
    else if names[0] in placed then Excluding(placed, names[1..])
    else [names[0]] + Excluding(placed, names[1..])
  }

  /** Targets first; a cyclic remainder comes last or is refused. */
  ghost function Arrange(created: seq<Table>, rank: string -> real, refuse: bool): Result<seq<Table>, seq<string>> {
    var byName := IndexBy(TableName, created);
    var order := Greedy(ReferenceGraph(created), rank, []);
    if |order| == |created| then Success(Pick(byName, order))
    else
      var cyclic := Sort(Excluding(Elements(order), Names(created)), rank);
      if refuse then Failure(cyclic) else Success(Pick(byName, order + cyclic))
  }

  /** What the planner asks for: the tables not listed yet, arranged. */
  ghost function InOrder(listed: set<string>, tables: seq<Table>, rank: string -> real, refuse: bool):
    Result<seq<Table>, seq<string>>
  {
    Arrange(Unlisted(listed, tables), rank, refuse)
  }

  // ---- facts about the pieces ----

  lemma {:induction false} NotListedMembers(listed: set<string>, tables: seq<Table>, t: Table)
    ensures t in NotListed(listed, tables) <==> t in tables && t.name !in listed
  {
    if tables != [] {
      NotListedMembers(listed, tables[1..], t);
    }
  }

  lemma {:induction false} NotListedDistinct(listed: set<string>, tables: seq<Table>)
    requires DistinctBy(TableName, tables)
    ensures DistinctBy(TableName, NotListed(listed, tables))
  {
    if tables != [] {
      assert DistinctBy(TableName, tables[1..]) by {
        forall i, j | 0 <= i < j < |tables[1..]| ensures TableName(tables[1..][i]) != TableName(tables[1..][j]) {
          assert TableName(tables[i + 1]) != TableName(tables[j + 1]);
        }
      }
      var rest := NotListed(listed, tables[1..]);
      NotListedDistinct(listed, tables[1..]);
      forall j | 0 <= j < |rest|
        ensures TableName(rest[j]) != TableName(tables[0])
      {
        NotListedMembers(listed, tables[1..], rest[j]);
        var k :| 0 <= k < |tables[1..]| && tables[1..][k] == rest[j];
        assert TableName(tables[0]) != TableName(tables[k + 1]);
      }
    }
  }

  lemma UnlistedMembers(listed: set<string>, tables: seq<Table>, t: Table)
    requires DistinctBy(TableName, tables)
    ensures t in Unlisted(listed, tables) <==> t in tables && t.name !in listed
  {
    NotListedMembers(listed, tables, t);
    NotListedDistinct(listed, tables);
    MergedIsItself(TableName, NotListed(listed, tables));
  }

  lemma UnlistedDistinct(listed: set<string>, tables: seq<Table>)
    ensures DistinctBy(TableName, Unlisted(listed, tables))
  {
    MergedDistinct(TableName, NotListed(listed, tables));
  }

  lemma KeysAreNames(tables: seq<Table>)
    ensures IndexBy(TableName, tables).Keys == Elements(Names(tables))
  {
    var names := Names(tables);
    forall n | n in names
      ensures n in IndexBy(TableName, tables)
    {
      var i :| 0 <= i < |names| && names[i] == n;
      IndexByHolds(TableName, tables, tables[i]);
    }
    forall n | n in IndexBy(TableName, tables)
      ensures n in names
    {
      IndexByFinds(TableName, tables, n);
      var t := IndexBy(TableName, tables)[n];
      var i :| 0 <= i < |tables| && tables[i] == t;
      assert names[i] == n;
    }
  }

  lemma NamesDistinct(tables: seq<Table>)
    requires DistinctBy(TableName, tables)
    ensures Distinct(Names(tables)) && |Elements(Names(tables))| == |tables|
  {
    var names := Names(tables);
    forall i, j | 0 <= i < j < |names| ensures names[i] != names[j] {
      assert TableName(tables[i]) != TableName(tables[j]);
    }
    CardinalityOfDistinct(names);
  }

  lemma {:induction false} ExcludingMembers(placed: set<string>, names: seq<string>)
    ensures Elements(Excluding(placed, names)) == Elements(names) - placed
    ensures Distinct(names) ==> Distinct(Excluding(placed, names))
  {
    if names != [] {
      var rest := Excluding(placed, names[1..]);
      ExcludingMembers(placed, names[1..]);
      assert Elements(names) == {names[0]} + Elements(names[1..]);
      if names[0] !in placed {
        assert Elements([names[0]] + rest) == {names[0]} + Elements(rest);
        if Distinct(names) {
          forall j | 0 <= j < |rest| ensures rest[j] != names[0] {
            assert rest[j] in Elements(rest);
            var k :| 0 <= k < |names[1..]| && names[1..][k] == rest[j];
            assert names[0] != names[k + 1];
          }
        }
      }
    }
  }

  lemma {:induction false} PickAll(byName: map<string, Table>, names: seq<string>)
    requires Elements(names) <= byName.Keys
    ensures |Pick(byName, names)| == |names|
    ensures forall i | 0 <= i < |names| :: names[i] in byName && Pick(byName, names)[i] == byName[names[i]]
  {
    if names != [] {
      assert names[0] in Elements(names);
      assert Elements(names[1..]) <= Elements(names);
      PickAll(byName, names[1..]);
    }
  }

  lemma PickSnoc(byName: map<string, Table>, names: seq<string>, n: string)
    requires Elements(names) <= byName.Keys && n in byName
    ensures Pick(byName, names + [n]) == Pick(byName, names) + [byName[n]]
  {
    assert Elements(names + [n]) == Elements(names) + {n};
    PickAll(byName, names);
    PickAll(byName, names + [n]);
  }

  lemma ReferenceGraphIsValid(created: seq<Table>)
    ensures ValidGraph(ReferenceGraph(created))
    ensures ReferenceGraph(created).Keys == IndexBy(TableName, created).Keys
  {
    var byName := IndexBy(TableName, created);
    forall n | n in byName
      ensures Targets(byName[n], byName.Keys) <= byName.Keys - {n}
    {
      IndexByFinds(TableName, created, n);
    }
  }

  lemma PickNames(created: seq<Table>, names: seq<string>)
    requires Elements(names) <= IndexBy(TableName, created).Keys
    ensures Names(Pick(IndexBy(TableName, created), names)) == names
  {
    var byName := IndexBy(TableName, created);
    PickAll(byName, names);
    forall i | 0 <= i < |names| ensures Names(Pick(byName, names))[i] == names[i] {
      IndexByFinds(TableName, created, names[i]);
    }
  }

  // ---- the queue ----

  /** The bookkeeping maps after the first tables have been entered. */
  ghost predicate Recorded(g: Graph, entered: set<string>, dependencies: map<string, set<string>>,
                           dependants: map<string, set<string>>)
  {
    && entered <= g.Keys
    && dependencies.Keys == entered
    && (forall n | n in entered :: dependencies[n] == g[n])
    && (forall target | target in dependants :: dependants[target] <= entered)
    && (forall target, n | n in entered :: (target in dependants && n in dependants[target]) <==> target in g[n])
  }

  method Enter(name: string, targets: set<string>, dependants0: map<string, set<string>>)
    returns (dependants: map<string, set<string>>)
    ensures dependants.Keys == dependants0.Keys + targets
    ensures forall t | t in dependants ::
              dependants[t] == (if t in dependants0 then dependants0[t] else {}) + (if t in targets then {name} else {})
  {
    dependants := dependants0;
    var rest := targets;
    while rest != {}
      invariant rest <= targets
      invariant dependants.Keys == dependants0.Keys + (targets - rest)
      invariant forall t | t in dependants ::
                  dependants[t] == (if t in dependants0 then dependants0[t] else {})
                    + (if t in targets - rest then {name} else {})
      decreases rest
    {
      var target :| target in rest;
      var children := if target in dependants then dependants[target] else {};
      dependants := dependants[target := children + {name}];
      rest := rest - {target};
    }
  }

  lemma RecordedStep(g: Graph, entered: set<string>, name: string,
                     dependencies: map<string, set<string>>, dependants: map<string, set<string>>,
                     dependants': map<string, set<string>>)
    requires Recorded(g, entered, dependencies, dependants) && name in g && name !in entered
    requires dependants'.Keys == dependants.Keys + g[name]
    requires forall t | t in dependants' ::
               dependants'[t] == (if t in dependants then dependants[t] else {}) + (if t in g[name] then {name} else {})
    ensures Recorded(g, entered + {name}, dependencies[name := g[name]], dependants')
  {
  }

  lemma GraphAt(created: seq<Table>, t: Table)
    requires DistinctBy(TableName, created) && t in created
    ensures t.name in ReferenceGraph(created)
    ensures ReferenceGraph(created)[t.name] == Targets(t, IndexBy(TableName, created).Keys)
  {
    IndexByUnique(TableName, created, t);
  }

  method Record(created: seq<Table>, byName: map<string, Table>)
    returns (dependencies: map<string, set<string>>, dependants: map<string, set<string>>)
    requires DistinctBy(TableName, created) && byName == IndexBy(TableName, created)
    ensures Recorded(ReferenceGraph(created), byName.Keys, dependencies, dependants)
  {
    hide Names, ReferenceGraph, Targets, IndexBy;
    ghost var g := ReferenceGraph(created);
    ghost var names := Names(created);
    NamesDistinct(created);
    dependencies, dependants := map[], map[];
    for i := 0 to |created|
      invariant Recorded(g, Elements(names[..i]), dependencies, dependants)
    {
      var table := created[i];
      GraphAt(created, table);
      ElementsTake(names, i);
      var targets := Targets(table, byName.Keys);
      var extended := Enter(table.name, targets, dependants);
      RecordedStep(g, Elements(names[..i]), table.name, dependencies, dependants, extended);
      dependencies, dependants := dependencies[table.name := targets], extended;
    }
    KeysAreNames(created);
    assert names[..|created|] == names;
  }

  function Unblocked(dependencies: map<string, set<string>>, names: seq<string>): seq<string>
  {
    if names == [] then []
    else if names[0] in dependencies && dependencies[names[0]] == {} then
      [names[0]] + Unblocked(dependencies, names[1..])
    else Unblocked(dependencies, names[1..])
  }

  lemma {:induction false} UnblockedMembers(dependencies: map<string, set<string>>, names: seq<string>)
    ensures forall n :: n in Unblocked(dependencies, names) <==>
            n in names && n in dependencies && dependencies[n] == {}
    ensures Distinct(names) ==> Distinct(Unblocked(dependencies, names))
  {
    if names != [] {
      var rest := Unblocked(dependencies, names[1..]);
      UnblockedMembers(dependencies, names[1..]);
      assert forall n :: n in names <==> n == names[0] || n in names[1..];
      if Distinct(names) {
        assert names[0] !in names[1..];
        assert forall j | 0 <= j < |rest| :: rest[j] in rest;
      }
    }
  }

  /**
   * What holds of the queue once the tables in `done` are placed and the children in `todo` are still to be
   * visited.
   */
  ghost predicate Queued(g: Graph, rank: string -> real, done: seq<string>, last: set<string>, todo: set<string>,
                         dependencies: map<string, set<string>>, ready: seq<string>)
  {
    && dependencies.Keys == g.Keys
    && (forall n | n in g :: dependencies[n] == g[n] - Elements(done) + (if n in todo then last else {}))
    && (forall n | n in todo :: n in g && n !in done && last <= g[n])
    && Ascending(ready, rank)
    && Elements(ready) == Ready(g, done) - todo
  }

  lemma AddedAndTaken(all: set<string>, gone: set<string>, name: string)
    requires name in gone
    ensures all - gone + {name} - {name} == all - gone
    ensures all - gone == {} <==> all <= gone
  {
    forall n
      ensures n in all - gone + {name} - {name} <==> n in all - gone
    {
    }
    if all - gone == {} {
      forall n | n in all
        ensures n in gone
      {
        assert n !in all - gone;
      }
    }
  }

  /** A child is ready once the table just placed was the last it waited for. */
  lemma ReadyAfter(g: Graph, rank: string -> real, done: seq<string>, name: string, todo: set<string>, child: string,
                   dependencies: map<string, set<string>>, ready: seq<string>)
    requires name in done && child in todo && Queued(g, rank, done, {name}, todo, dependencies, ready)
    ensures child in dependencies
    ensures var rest := Ready(g, done) - (todo - {child});
            rest == Elements(ready) + if dependencies[child] - {name} == {} then {child} else {}
    ensures child !in Elements(ready)
  {
    assert name in Elements(done) && child in g && child !in done;
    assert dependencies[child] == g[child] - Elements(done) + {name};
    AddedAndTaken(g[child], Elements(done), name);
    assert child in Ready(g, done) <==> dependencies[child] - {name} == {};
    var rest := Ready(g, done) - (todo - {child});
    var after := Elements(ready) + if dependencies[child] - {name} == {} then {child} else {};
    hide Ready, Queued, Elements;
    forall n
      ensures n in rest <==> n in after
    {
    }
  }

  lemma ChildrenAreKnown(g: Graph, rank: string -> real, done: seq<string>, name: string, todo: set<string>,
                         dependencies: map<string, set<string>>, ready: seq<string>)
    requires Queued(g, rank, done, {name}, todo, dependencies, ready)
    ensures forall n | n in todo :: n in dependencies
  {
  }

  lemma ReleaseOne(g: Graph, rank: string -> real, done: seq<string>, name: string, todo: set<string>, child: string,
                   dependencies: map<string, set<string>>, ready: seq<string>)
    requires Collates(rank) && name in done && child in todo && Queued(g, rank, done, {name}, todo, dependencies, ready)
    ensures child in dependencies && forall n | n in todo :: n in dependencies
    ensures var remaining := dependencies[child] - {name};
            Queued(g, rank, done, {name}, todo - {child}, dependencies[child := remaining],
                   if remaining == {} then Insert(child, ready, rank) else ready)
  {
    hide Ready, Insert;
    ReadyAfter(g, rank, done, name, todo, child, dependencies, ready);
    InsertElements(child, ready, rank);
    InsertSorts(child, ready, rank);
    var remaining := dependencies[child] - {name};
    assert remaining == g[child] - Elements(done);
  }

  method Release(ghost g: Graph, rank: string -> real, ghost done: seq<string>, name: string, children: set<string>,
                 dependencies0: map<string, set<string>>, ready0: seq<string>)
    returns (dependencies: map<string, set<string>>, ready: seq<string>)
    requires Collates(rank) && name in done
    requires Queued(g, rank, done, {name}, children, dependencies0, ready0)
    ensures Queued(g, rank, done, {name}, {}, dependencies, ready)
  {
    hide Queued, Insert, Collates;
    ChildrenAreKnown(g, rank, done, name, children, dependencies0, ready0);
    dependencies, ready := dependencies0, ready0;
    var rest := children;
    while rest != {}
      invariant forall child | child in rest :: child in dependencies
      invariant Queued(g, rank, done, {name}, rest, dependencies, ready)
      decreases rest
    {
      var child :| child in rest;
      ReleaseOne(g, rank, done, name, rest, child, dependencies, ready);
      var remaining := dependencies[child] - {name};
      dependencies := dependencies[child := remaining];
      rest := rest - {child};
      if remaining == {} {
        ready := Insert(child, ready, rank);
      }
    }
  }

  lemma HeadIsLeast(ready: seq<string>, rank: string -> real)
    requires Collates(rank) && Ascending(ready, rank) && ready != []
    ensures Elements(ready) != {} && ready[0] == Least(Elements(ready), rank)
    ensures Elements(ready[1..]) == Elements(ready) - {ready[0]}
  {
    assert ready[0] in Elements(ready);
    var least := Least(Elements(ready), rank);
    assert least in Elements(ready);
    hide Least;
    var i :| 0 <= i < |ready| && ready[i] == least;
    assert i == 0;
    forall n | n in ready[1..]
      ensures n != ready[0]
    {
      var j :| 0 <= j < |ready[1..]| && ready[1..][j] == n;
      assert rank(ready[0]) < rank(ready[j + 1]);
    }
    assert Elements(ready) == {ready[0]} + Elements(ready[1..]);
  }

  /** Placing the head of the queue: it was ready, and it is the least ready table. */
  lemma TakeLeast(g: Graph, rank: string -> real, done: seq<string>, ready: seq<string>)
    requires Collates(rank) && Ascending(ready, rank) && ready != [] && Elements(ready) == Ready(g, done)
    ensures ready[0] in Ready(g, done) && ready[0] == Least(Ready(g, done), rank)
    ensures Greedy(g, rank, done) == Greedy(g, rank, done + [ready[0]])
    ensures Elements(ready[1..]) == Ready(g, done) - {ready[0]}
  {
    HeadIsLeast(ready, rank);
    assert ready[0] in Elements(ready);
    assert Greedy(g, rank, done) == Greedy(g, rank, done + [ready[0]]);
  }

  lemma ReadyAfterTaking(g: Graph, done: seq<string>, name: string, children: set<string>)
    requires name in Ready(g, done)
    requires forall n :: n in children <==> n in g && name in g[n]
    ensures Ready(g, done + [name]) - children == Ready(g, done) - {name}
  {
    assert Elements(done + [name]) == Elements(done) + {name};
    forall n
      ensures n in Ready(g, done + [name]) - children <==> n in Ready(g, done) - {name}
    {
    }
  }

  lemma StillRecorded(g: Graph, done: seq<string>, name: string, children: set<string>,
                      dependencies: map<string, set<string>>)
    requires dependencies.Keys == g.Keys && forall n | n in g :: dependencies[n] == g[n] - Elements(done)
    requires name !in done && forall n :: n in children <==> n in g && name in g[n]
    ensures forall n | n in g ::
              dependencies[n] == g[n] - Elements(done + [name]) + (if n in children then {name} else {})
  {
    assert Elements(done + [name]) == Elements(done) + {name};
  }

  lemma AfterTaking(g: Graph, rank: string -> real, done: seq<string>, dependencies: map<string, set<string>>,
                    ready: seq<string>, children: set<string>)
    requires Collates(rank) && ValidGraph(g) && Follows(g, done) && ready != []
    requires Queued(g, rank, done, {}, {}, dependencies, ready)
    requires forall n :: n in children <==> n in g && ready[0] in g[n]
    ensures Follows(g, done + [ready[0]])
    ensures Greedy(g, rank, done) == Greedy(g, rank, done + [ready[0]])
    ensures Queued(g, rank, done + [ready[0]], {ready[0]}, children, dependencies, ready[1..])
  {
    var name := ready[0];
    assert Elements(ready) == Ready(g, done);
    TakeLeast(g, rank, done, ready);
    FollowsSnoc(g, done, name);
    ReadyAfterTaking(g, done, name, children);
    StillRecorded(g, done, name, children, dependencies);
    forall i, j | 0 <= i < j < |ready[1..]|
      ensures rank(ready[1..][i]) < rank(ready[1..][j])
    {
      assert rank(ready[i + 1]) < rank(ready[j + 1]);
    }
  }

  /** The loop invariant: the tables in `done` are placed and the greedy order still ends the same way. */
  ghost predicate Placing(g: Graph, rank: string -> real, done: seq<string>, dependencies: map<string, set<string>>,
                          ready: seq<string>)
  {
    && Follows(g, done) && Greedy(g, rank, done) == Greedy(g, rank, [])
    && Queued(g, rank, done, {}, {}, dependencies, ready)
  }

  lemma ChildrenOf(g: Graph, name: string, dependencies: map<string, set<string>>, dependants: map<string, set<string>>)
    requires Recorded(g, g.Keys, dependencies, dependants)
    ensures forall n :: n in (if name in dependants then dependants[name] else {}) <==> n in g && name in g[n]
  {
  }

  lemma HeadIsReady(g: Graph, rank: string -> real, done: seq<string>, dependencies: map<string, set<string>>,
                    ready: seq<string>)
    requires Placing(g, rank, done, dependencies, ready) && ready != []
    ensures ready[0] in g.Keys - Elements(done) && Follows(g, done)
  {
    assert ready[0] in Elements(ready);
  }

  method PlaceHead(ghost g: Graph, rank: string -> real, ghost done: seq<string>,
                   ghost dependencies: map<string, set<string>>, dependencies0: map<string, set<string>>,
                   dependants: map<string, set<string>>, ready0: seq<string>)
    returns (dependencies': map<string, set<string>>, ready: seq<string>)
    requires Collates(rank) && ValidGraph(g) && ready0 != [] && Placing(g, rank, done, dependencies0, ready0)
    requires Recorded(g, g.Keys, dependencies, dependants)
    ensures ready0[0] in g.Keys - Elements(done) && Follows(g, done)
    ensures Placing(g, rank, done + [ready0[0]], dependencies', ready)
  {
    hide Greedy, Ready, Insert;
    var name := ready0[0];
    var children := if name in dependants then dependants[name] else {};
    assert name in Elements(ready0);
    ChildrenOf(g, name, dependencies, dependants);
    HeadIsReady(g, rank, done, dependencies0, ready0);
    AfterTaking(g, rank, done, dependencies0, ready0, children);
    dependencies', ready := Release(g, rank, done + [name], name, children, dependencies0, ready0[1..]);
  }

  lemma PlacedOne(byName: map<string, Table>, g: Graph, done: seq<string>, name: string)
    requires Follows(g, done) && g.Keys == byName.Keys && name in g.Keys - Elements(done)
    ensures name in byName
    ensures Pick(byName, done + [name]) == Pick(byName, done) + [byName[name]]
    ensures g.Keys - Elements(done + [name]) < g.Keys - Elements(done)
  {
    PickSnoc(byName, done, name);
    assert Elements(done + [name]) == Elements(done) + {name};
    assert name !in g.Keys - Elements(done + [name]);
  }

  lemma QueueRunsDry(g: Graph, rank: string -> real, done: seq<string>, dependencies: map<string, set<string>>,
                     ready: seq<string>)
    requires Placing(g, rank, done, dependencies, ready) && ready == []
    ensures Greedy(g, rank, []) == done
  {
    assert Elements(ready) == {};
  }

  method Place(byName: map<string, Table>, ghost g: Graph, rank: string -> real,
               dependencies0: map<string, set<string>>, dependants: map<string, set<string>>, ready0: seq<string>)
    returns (ordered: seq<Table>)
    requires Collates(rank) && ValidGraph(g) && g.Keys == byName.Keys
    requires Recorded(g, g.Keys, dependencies0, dependants)
    requires Placing(g, rank, [], dependencies0, ready0)
    ensures ordered == Pick(byName, Greedy(g, rank, []))
  {
    hide Placing, Recorded, Greedy, Follows;
    var dependencies, ready := dependencies0, ready0;
    ordered := [];
    ghost var done: seq<string> := [];
    while ready != []
      invariant Placing(g, rank, done, dependencies, ready)
      invariant ordered == Pick(byName, done)
      decreases g.Keys - Elements(done)
    {
      var name := ready[0];
      dependencies, ready := PlaceHead(g, rank, done, dependencies0, dependencies, dependants, ready);
      PlacedOne(byName, g, done, name);
      ordered, done := ordered + [byName[name]], done + [name];
    }
    QueueRunsDry(g, rank, done, dependencies, ready);
  }

  lemma UnblockedAreReady(g: Graph, names: seq<string>)
    requires g.Keys == Elements(names)
    ensures Elements(Unblocked(g, names)) == Ready(g, [])
  {
    UnblockedMembers(g, names);
    forall n
      ensures n in Elements(Unblocked(g, names)) <==> n in Ready(g, [])
    {
      assert n in g.Keys <==> n in Elements(names);
    }
  }

  method InitiallyReady(names: seq<string>, ghost g: Graph, rank: string -> real,
                        dependencies: map<string, set<string>>, ghost dependants: map<string, set<string>>)
    returns (ready: seq<string>)
    requires Collates(rank) && Distinct(names)
    requires Recorded(g, g.Keys, dependencies, dependants) && g.Keys == Elements(names)
    ensures Placing(g, rank, [], dependencies, ready)
  {
    assert dependencies == g;
    var free := Unblocked(dependencies, names);
    UnblockedMembers(dependencies, names);
    UnblockedAreReady(g, names);
    SortSorts(free, rank);
    ready := Sort(free, rank);
  }

  lemma {:induction false} PickConcat(byName: map<string, Table>, a: seq<string>, b: seq<string>)
    ensures Pick(byName, a + b) == Pick(byName, a) + Pick(byName, b)
  {
    if a == [] {
      assert a + b == b;
    } else {
      PickConcat(byName, a[1..], b);
      assert (a + b)[1..] == a[1..] + b;
    }
  }

  method ArrangeTables(created: seq<Table>, rank: string -> real, refuse: bool)
    returns (r: Result<seq<Table>, seq<string>>)
    requires Collates(rank) && DistinctBy(TableName, created)
    ensures r == Arrange(created, rank, refuse)
  {
    hide Excluding, Sort, Greedy, Pick, Placing, Recorded, ReferenceGraph, IndexBy, Names;
    KeysAreNames(created);
    NamesDistinct(created);
    ReferenceGraphIsValid(created);
    var byName := IndexBy(TableName, created);
    ghost var g := ReferenceGraph(created);
    var dependencies, dependants := Record(created, byName);
    var ready := InitiallyReady(Names(created), g, rank, dependencies, dependants);
    var ordered := Place(byName, g, rank, dependencies, dependants, ready);
    ghost var order := Greedy(g, rank, []);
    GreedyFollows(g, rank, []);
    PickAll(byName, order);
    if |ordered| == |created| {
      return Success(ordered);
    }
    var placed := Elements(Names(ordered));
    PickNames(created, order);
    var cyclic := Sort(Excluding(placed, Names(created)), rank);
    if refuse {
      return Failure(cyclic);
    }
    PickConcat(byName, order, cyclic);
    return Success(ordered + Pick(byName, cyclic));
  }

  /**
   * The tables to create, targets before the tables that reference them. A cyclic remainder
   * is an error for a caller that cannot place it and is otherwise appended in name order.
   */
  method CreatedTablesInOrder(listed: set<string>, tables: seq<Table>, rank: string -> real, refuse: bool)
    returns (r: Result<seq<Table>, seq<string>>)
    requires Collates(rank)
    ensures r == InOrder(listed, tables, rank, refuse)
  {
    var created := Unlisted(listed, tables);
    assert InOrder(listed, tables, rank, refuse) == Arrange(created, rank, refuse);
    UnlistedDistinct(listed, tables);
    r := ArrangeTables(created, rank, refuse);
  }
}
