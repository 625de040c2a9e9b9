/**
 * The order in which tables are created: every table after the other new tables it references,
 * alphabetically least among all such orders. A collation is a ranking of names, so any total
 * order in which different names differ fits.
 */
module TableOrder {
  import opened Sequences

  /** For each new table, the other new tables its foreign keys name. */
  type Graph = map<string, set<string>>

  ghost predicate ValidGraph(g: Graph) {
    forall n | n in g :: g[n] <= g.Keys - {n}
  }

  ghost predicate Collates(rank: string -> real) {
    forall a, b :: rank(a) == rank(b) ==> a == b
  }

  ghost predicate Ascending(names: seq<string>, rank: string -> real) {
    forall i, j :: 0 <= i < j < |names| ==> rank(names[i]) < rank(names[j])
  }

  // ---- sorting names ----

  function Insert(name: string, names: seq<string>, rank: string -> real): seq<string>
  {
    if names == [] || rank(name) < rank(names[0]) then [name] + names
    else [names[0]] + Insert(name, names[1..], rank)
  }

  lemma {:induction false} InsertElements(name: string, names: seq<string>, rank: string -> real)
    ensures Elements(Insert(name, names, rank)) == Elements(names) + {name}
    ensures |Insert(name, names, rank)| == |names| + 1
  {
    if names != [] && rank(name) >= rank(names[0]) {
      InsertElements(name, names[1..], rank);
      assert Elements(names) == {names[0]} + Elements(names[1..]);
      assert Elements(Insert(name, names, rank)) == {names[0]} + Elements(Insert(name, names[1..], rank));
    }
  }

  lemma AscendingHead(names: seq<string>, rank: string -> real, n: string)
    requires names != [] && Ascending(names, rank)
    ensures n in names[1..] ==> rank(names[0]) < rank(n)
  {
    if n in names[1..] {
      var i :| 0 <= i < |names| - 1 && names[1..][i] == n;
      assert names[i + 1] == n;
    }
  }

  lemma AscendingCons(name: string, rest: seq<string>, rank: string -> real)
    requires Ascending(rest, rank) && forall n | n in Elements(rest) :: rank(name) < rank(n)
    ensures Ascending([name] + rest, rank)
  {
    assert forall i | 0 <= i < |rest| :: rest[i] in Elements(rest);
  }

  lemma {:induction false} InsertSorts(name: string, names: seq<string>, rank: string -> real)
    requires Collates(rank) && Ascending(names, rank) && name !in names
    ensures Ascending(Insert(name, names, rank), rank)
  {
    if names != [] && rank(name) >= rank(names[0]) {
      assert names[0] != name;
      var rest := Insert(name, names[1..], rank);
      InsertSorts(name, names[1..], rank);
      InsertElements(name, names[1..], rank);
      forall n | n in Elements(rest)
        ensures rank(names[0]) < rank(n)
      {
        AscendingHead(names, rank, n);
      }
      AscendingCons(names[0], rest, rank);
    }
  }

  function Sort(names: seq<string>, rank: string -> real): seq<string>
  {
    if names == [] then [] else Insert(names[0], Sort(names[1..], rank), rank)
  }

  lemma {:induction false} SortSorts(names: seq<string>, rank: string -> real)
    requires Collates(rank) && Distinct(names)
    ensures Ascending(Sort(names, rank), rank)
    ensures Elements(Sort(names, rank)) == Elements(names)
    ensures |Sort(names, rank)| == |names|
  {
    if names != [] {
      SortSorts(names[1..], rank);
      assert names[0] !in Elements(names[1..]);
      InsertSorts(names[0], Sort(names[1..], rank), rank);
      InsertElements(names[0], Sort(names[1..], rank), rank);
      assert Elements(names) == {names[0]} + Elements(names[1..]);
    }
  }

  // ---- the order ----

  ghost function Ready(g: Graph, done: seq<string>): set<string> {
    set n | n in g && n !in done && g[n] <= Elements(done)
  }

  lemma {:induction false} LeastExists(names: set<string>, rank: string -> real) returns (least: string)
    requires names != {}
    ensures least in names && forall n | n in names :: rank(least) <= rank(n)
  {
    var x :| x in names;
    var rest := names - {x};
    least := x;
    if rest != {} {
      var y := LeastExists(rest, rank);
      if rank(y) < rank(x) {
        least := y;
      }
    }
    forall n | n in names
      ensures rank(least) <= rank(n)
    {
      assert n == x || n in rest;
    }
  }

  ghost function Least(names: set<string>, rank: string -> real): (least: string)
    requires names != {}
    ensures least in names && forall n | n in names :: rank(least) <= rank(n)
  {
    assert exists least :: least in names && forall n | n in names :: rank(least) <= rank(n) by {
      var least := LeastExists(names, rank);
    }
    var least :| least in names && forall n | n in names :: rank(least) <= rank(n);
    least
  }

  /** Keep appending the alphabetically first table whose targets have all been placed. */
  ghost function Greedy(g: Graph, rank: string -> real, done: seq<string>): seq<string>
    decreases g.Keys - Elements(done)
  {
    if Ready(g, done) == {} then done
    else
      var next := Least(Ready(g, done), rank);
      assert next !in Elements(done) && next in Elements(done + [next]);
      Greedy(g, rank, done + [next])
  }

  /** A repetition-free arrangement of tables in which every table follows its targets. */
  ghost predicate Follows(g: Graph, order: seq<string>) {
    && Distinct(order)
    && Elements(order) <= g.Keys
    && forall i | 0 <= i < |order| :: g[order[i]] <= Elements(order[..i])
  }

  lemma FollowsSnoc(g: Graph, done: seq<string>, n: string)
    requires Follows(g, done) && n in Ready(g, done)
    ensures Follows(g, done + [n])
  {
    var order := done + [n];
    forall i | 0 <= i < |order|
      ensures order[i] in g && g[order[i]] <= Elements(order[..i])
    {
      if i < |done| {
        assert order[i] == done[i] && done[i] in Elements(done) && order[..i] == done[..i];
      } else {
        assert order[..i] == done;
      }
    }
  }

  lemma {:induction false} GreedyFollows(g: Graph, rank: string -> real, done: seq<string>)
    requires Follows(g, done)
    ensures Follows(g, Greedy(g, rank, done)) && done <= Greedy(g, rank, done)
    ensures Ready(g, Greedy(g, rank, done)) == {}
    decreases g.Keys - Elements(done)
  {
    if Ready(g, done) != {} {
      var next := Least(Ready(g, done), rank);
      assert next !in Elements(done) && next in Elements(done + [next]);
      FollowsSnoc(g, done, next);
      GreedyFollows(g, rank, done + [next]);
    }
  }

  /** a comes before b in a dictionary that lists tables by the collation. */
  ghost predicate Precedes(a: seq<string>, b: seq<string>, rank: string -> real) {
    exists i :: 0 <= i < |a| && i < |b| && a[..i] == b[..i] && rank(a[i]) < rank(b[i])
  }

  lemma {:induction false} GreedyLeastFrom(g: Graph, rank: string -> real, done: seq<string>, q: seq<string>)
    requires Collates(rank) && Follows(g, q) && Elements(q) == g.Keys && done <= q
    ensures Greedy(g, rank, done) == q || Precedes(Greedy(g, rank, done), q, rank)
    decreases g.Keys - Elements(done)
  {
    var k := |done|;
    if k < |q| {
      assert q[..k] == done;
      assert q[k] in Elements(q) && q[k] !in done;
      assert q[k] in Ready(g, done);
      var next := Least(Ready(g, done), rank);
      assert next !in Elements(done) && next in Elements(done + [next]);
      if next == q[k] {
        assert done + [next] == q[..k + 1];
        GreedyLeastFrom(g, rank, done + [next], q);
      } else {
        assert Follows(g, done) by {
          forall i | 0 <= i < k ensures done[i] in g && g[done[i]] <= Elements(done[..i]) {
            assert done[i] == q[i] && done[..i] == q[..i] && q[i] in Elements(q);
          }
        }
        FollowsSnoc(g, done, next);
        GreedyFollows(g, rank, done + [next]);
        var o := Greedy(g, rank, done);
        assert o[k] == next && o[..k] == q[..k];
        assert rank(o[k]) < rank(q[k]);
      }
    } else {
      assert done == q;
      assert Ready(g, done) == {} by {
        assert forall n | n in g :: n in Elements(q);
      }
    }
  }

  /** No arrangement of all tables that respects their references is alphabetically smaller. */
  lemma GreedyIsLeast(g: Graph, rank: string -> real, q: seq<string>)
    requires Collates(rank) && Follows(g, q) && Elements(q) == g.Keys
    ensures Greedy(g, rank, []) == q || Precedes(Greedy(g, rank, []), q, rank)
  {
    GreedyLeastFrom(g, rank, [], q);
  }

  // ---- cycles ----

  /** A closed walk along references: it ends at the table it starts from. */
  ghost predicate Cycle(g: Graph, c: seq<string>) {
    && |c| >= 2
    && c[0] == c[|c| - 1]
    && forall i | 0 <= i < |c| - 1 :: c[i] in g && c[i + 1] in g[c[i]]
  }

  /** A walk along references. */
  ghost predicate IsWalk(g: Graph, w: seq<string>) {
    w != [] && forall i | 0 <= i < |w| - 1 :: w[i] in g && w[i + 1] in g[w[i]]
  }

  lemma {:induction false} Descend(g: Graph, order: seq<string>, w: seq<string>, start: nat, k: nat) returns (at: nat)
    requires Follows(g, order) && IsWalk(g, w) && start < |order| && order[start] == w[0]
    requires k < |w|
    ensures at < |order| && at + k <= start && order[at] == w[k]
  {
    if k == 0 {
      at := start;
    } else {
      var p := Descend(g, order, w, start, k - 1);
      assert w[k] in g[w[k - 1]];
      assert w[k] in Elements(order[..p]);
      at :| 0 <= at < p && order[..p][at] == w[k];
    }
  }

  lemma {:induction false} CycleIsNeverPlaced(g: Graph, order: seq<string>, c: seq<string>)
    requires Follows(g, order) && Cycle(g, c)
    ensures c[0] !in order
  {
    if c[0] in order {
      var start: nat :| start < |order| && order[start] == c[0];
      var at := Descend(g, order, c, start, |c| - 1);
      assert false;
    }
  }

  lemma {:induction false} Walk(g: Graph, stuck: set<string>, start: string, steps: nat) returns (w: seq<string>)
    requires start in stuck && stuck <= g.Keys && forall n | n in stuck :: g[n] * stuck != {}
    ensures |w| == steps + 1 && Elements(w) <= stuck && w[0] == start
    ensures forall i | 0 <= i < steps :: w[i + 1] in g[w[i]]
  {
    if steps == 0 {
      w := [start];
    } else {
      var v := Walk(g, stuck, start, steps - 1);
      assert v[steps - 1] in Elements(v);
      var n :| n in g[v[steps - 1]] * stuck;
      w := v + [n];
      assert Elements(w) == Elements(v) + {n};
    }
  }

  lemma StuckMeansCycle(g: Graph, stuck: set<string>) returns (c: seq<string>)
    requires stuck != {} && stuck <= g.Keys && forall n | n in stuck :: g[n] * stuck != {}
    ensures Cycle(g, c)
  {
    var start :| start in stuck;
    var w := Walk(g, stuck, start, |stuck|);
    var i, j := Pigeonhole(w, stuck);
    c := w[i..j + 1];
    forall k | 0 <= k < |c| - 1
      ensures c[k] in g && c[k + 1] in g[c[k]]
    {
      assert c[k] == w[i + k] && w[i + k] in Elements(w);
    }
  }

  /** Every table that is left over waits for another one. */
  lemma StuckTogether(g: Graph, order: seq<string>)
    requires Follows(g, order) && Ready(g, order) == {} && ValidGraph(g)
    ensures var stuck := g.Keys - Elements(order); forall n | n in stuck :: g[n] * stuck != {}
  {
    var stuck := g.Keys - Elements(order);
    forall n | n in stuck
      ensures g[n] * stuck != {}
    {
      assert n !in Ready(g, order);
      var d :| d in g[n] && d !in Elements(order);
      assert d in g.Keys - {n};
      assert d in g[n] * stuck;
    }
  }

  lemma LeftOverMeansCycle(g: Graph, order: seq<string>) returns (c: seq<string>)
    requires Follows(g, order) && Ready(g, order) == {} && Elements(order) != g.Keys
    requires ValidGraph(g)
    ensures Cycle(g, c)
  {
    var stuck := g.Keys - Elements(order);
    assert stuck != {} by {
      assert g.Keys == Elements(order) + stuck;
    }
    StuckTogether(g, order);
    c := StuckMeansCycle(g, stuck);
  }

  /** From the table a walk leads that comes to some table twice. */
  ghost predicate LeadsToCycle(g: Graph, n: string) {
    exists w, i, j :: IsWalk(g, w) && w[0] == n && 0 <= i < j < |w| && w[i] == w[j]
  }

  lemma PlacedLeadsToNoCycle(g: Graph, order: seq<string>, n: string)
    requires Follows(g, order) && n in order
    ensures !LeadsToCycle(g, n)
  {
    if LeadsToCycle(g, n) {
      var w, i, j :| IsWalk(g, w) && w[0] == n && 0 <= i < j < |w| && w[i] == w[j];
      var start: nat :| start < |order| && order[start] == n;
      var at := Descend(g, order, w, start, i);
      var c := w[i..j + 1];
      forall k | 0 <= k < |c| - 1
        ensures c[k] in g && c[k + 1] in g[c[k]]
      {
        assert c[k] == w[i + k] && c[k + 1] == w[i + k + 1];
      }
      CycleIsNeverPlaced(g, order, c);
    }
  }

  lemma StuckLeadsToCycle(g: Graph, stuck: set<string>, n: string)
    requires n in stuck && stuck <= g.Keys && forall m | m in stuck :: g[m] * stuck != {}
    ensures LeadsToCycle(g, n)
  {
    var w := Walk(g, stuck, n, |stuck|);
    var i, j := Pigeonhole(w, stuck);
    assert IsWalk(g, w) by {
      forall k | 0 <= k < |w| - 1
        ensures w[k] in g && w[k + 1] in g[w[k]]
      {
        assert w[k] in Elements(w);
      }
    }
  }

  /** The tables left over are just those from which references lead to a cycle. */
  lemma LeftOverWhen(g: Graph, order: seq<string>, n: string)
    requires Follows(g, order) && Ready(g, order) == {} && ValidGraph(g) && n in g
    ensures n !in order <==> LeadsToCycle(g, n)
  {
    hide LeadsToCycle, Follows, Ready, ValidGraph;
    if n in order {
      PlacedLeadsToNoCycle(g, order, n);
    } else {
      StuckTogether(g, order);
      StuckLeadsToCycle(g, g.Keys - Elements(order), n);
    }
  }

  lemma PlacedAllWhen(g: Graph, order: seq<string>)
    requires Follows(g, order)
    ensures |order| <= |g| && (|order| == |g| <==> Elements(order) == g.Keys)
  {
    CardinalityOfDistinct(order);
    var rest := g.Keys - Elements(order);
    assert g.Keys == Elements(order) + rest && |g.Keys| == |g|;
    assert |g.Keys| == |Elements(order)| + |rest|;
  }

  lemma NoCycleWhenAllPlaced(g: Graph, order: seq<string>, c: seq<string>)
    requires Follows(g, order) && Elements(order) == g.Keys
    ensures !Cycle(g, c)
  {
    if Cycle(g, c) {
      assert c[0] in Elements(order);
      CycleIsNeverPlaced(g, order, c);
    }
  }

  lemma NothingPlaced(g: Graph)
    ensures Follows(g, [])
  {
  }

  /** Some table is left over exactly when the references, self-references aside, form a cycle. */
  lemma LeftOverIffCycle(g: Graph, rank: string -> real)
    requires ValidGraph(g)
    ensures |Greedy(g, rank, [])| < |g| <==> exists c :: Cycle(g, c)
  {
    hide Greedy, Cycle, Ready, Elements;
    var order := Greedy(g, rank, []);
    NothingPlaced(g);
    GreedyFollows(g, rank, []);
    PlacedAllWhen(g, order);
    hide Follows, ValidGraph;
    if Elements(order) != g.Keys {
      var c := LeftOverMeansCycle(g, order);
    } else {
      forall c
        ensures !Cycle(g, c)
      {
        NoCycleWhenAllPlaced(g, order, c);
      }
    }
  }
}
