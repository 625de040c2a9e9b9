/** The hook calls of an application's life as values: in which order they come, and how often. */
module Lifecycle {

  /** Which lifecycle hooks an instance implements. */
  datatype Instance = Instance(moduleInit: bool, bootstrap: bool, shutdown: bool)

  /** One call of a hook, by the position of its instance or extension. */
  datatype Call = ModuleInit(i: nat) | Bootstrap(i: nat) | Start(j: nat) | Stop(j: nat) | Shutdown(i: nat)

  // ---- the order of calls ----

  function InitCalls(instances: seq<Instance>, n: nat): seq<Call>
    requires n <= |instances|
  {
    if n == 0 then [] else InitCalls(instances, n - 1) + if instances[n - 1].moduleInit then [ModuleInit(n - 1)] else []
  }

  function BootCalls(instances: seq<Instance>, n: nat): seq<Call>
    requires n <= |instances|
  {
    if n == 0 then [] else BootCalls(instances, n - 1) + if instances[n - 1].bootstrap then [Bootstrap(n - 1)] else []
  }

  /** Two full passes over the instances. */
  function RunInit(instances: seq<Instance>): seq<Call> {
    InitCalls(instances, |instances|) + BootCalls(instances, |instances|)
  }

  function StartCalls(n: nat): seq<Call>
  {
    if n == 0 then [] else StartCalls(n - 1) + [Start(n - 1)]
  }

  /** Stops of the extensions entered, the last first, down to a position. */
  function StopsDownTo(entered: nat, j: nat): seq<Call>
    decreases entered - j
  {
    if j >= entered then [] else StopsDownTo(entered, j + 1) + [Stop(j)]
  }

  /** The reverse shutdown pass, down to a position. */
  function ShutdownsDownTo(instances: seq<Instance>, i: nat): seq<Call>
    decreases |instances| - i
  {
    if i >= |instances| then []
    else ShutdownsDownTo(instances, i + 1) + if instances[i].shutdown then [Shutdown(i)] else []
  }

  /** Calls of a start that got as far as entering some of the extensions. */
  ghost predicate Begun(instances: seq<Instance>, begun: seq<Call>, entered: nat) {
    if entered == 0 then begun <= RunInit(instances) else begun == RunInit(instances) + StartCalls(entered)
  }

  /** All calls of a life that is over. */
  ghost predicate Whole(instances: seq<Instance>, calls: seq<Call>, begun: seq<Call>, entered: nat) {
    Begun(instances, begun, entered) && calls == begun + StopsDownTo(entered, 0) + ShutdownsDownTo(instances, 0)
  }

  lemma {:induction false} InitIsPrefix(instances: seq<Instance>, n: nat)
    requires n <= |instances|
    ensures InitCalls(instances, n) <= RunInit(instances)
    decreases |instances| - n
  {
    if n < |instances| {
      InitIsPrefix(instances, n + 1);
    }
  }

  lemma {:induction false} BootIsPrefix(instances: seq<Instance>, n: nat)
    requires n <= |instances|
    ensures InitCalls(instances, |instances|) + BootCalls(instances, n) <= RunInit(instances)
    decreases |instances| - n
  {
    if n < |instances| {
      BootIsPrefix(instances, n + 1);
    }
  }

  // ---- how often each call comes ----

  lemma CountMaybe(calls: seq<Call>, comes: bool, last: Call, c: Call)
    ensures multiset(calls + if comes then [last] else [])[c]
            == multiset(calls)[c] + if comes && c == last then 1 else 0
  {
    if !comes {
      assert calls + [] == calls;
    }
  }

  lemma NothingCalled(instances: seq<Instance>, c: Call)
    ensures multiset(InitCalls(instances, 0))[c] == 0 && multiset(BootCalls(instances, 0))[c] == 0
  {
  }

  lemma NothingShutDown(instances: seq<Instance>, i: nat, c: Call)
    requires i >= |instances|
    ensures multiset(ShutdownsDownTo(instances, i))[c] == 0
  {
  }

  lemma InitOneMore(instances: seq<Instance>, n: nat, c: Call)
    requires 0 < n <= |instances|
    ensures multiset(InitCalls(instances, n))[c]
            == multiset(InitCalls(instances, n - 1))[c]
               + if instances[n - 1].moduleInit && c == ModuleInit(n - 1) then 1 else 0
  {
    CountMaybe(InitCalls(instances, n - 1), instances[n - 1].moduleInit, ModuleInit(n - 1), c);
  }

  lemma BootOneMore(instances: seq<Instance>, n: nat, c: Call)
    requires 0 < n <= |instances|
    ensures multiset(BootCalls(instances, n))[c]
            == multiset(BootCalls(instances, n - 1))[c]
               + if instances[n - 1].bootstrap && c == Bootstrap(n - 1) then 1 else 0
  {
    CountMaybe(BootCalls(instances, n - 1), instances[n - 1].bootstrap, Bootstrap(n - 1), c);
  }

  lemma {:induction false} CountInit(instances: seq<Instance>, n: nat, c: Call)
    requires n <= |instances|
    ensures multiset(InitCalls(instances, n))[c]
            == (if c.ModuleInit? && c.i < n && instances[c.i].moduleInit then 1 else 0)
  {
    hide InitCalls;
    if n == 0 {
      NothingCalled(instances, c);
    } else {
      CountInit(instances, n - 1, c);
      InitOneMore(instances, n, c);
    }
  }

  lemma {:induction false} CountBoot(instances: seq<Instance>, n: nat, c: Call)
    requires n <= |instances|
    ensures multiset(BootCalls(instances, n))[c]
            == (if c.Bootstrap? && c.i < n && instances[c.i].bootstrap then 1 else 0)
  {
    hide BootCalls;
    if n == 0 {
      NothingCalled(instances, c);
    } else {
      CountBoot(instances, n - 1, c);
      BootOneMore(instances, n, c);
    }
  }

  lemma {:induction false} CountStarts(n: nat, c: Call)
    ensures multiset(StartCalls(n))[c] == (if c.Start? && c.j < n then 1 else 0)
  {
    if n > 0 {
      CountStarts(n - 1, c);
      CountMaybe(StartCalls(n - 1), true, Start(n - 1), c);
    }
  }

  lemma {:induction false} CountStops(entered: nat, j: nat, c: Call)
    ensures multiset(StopsDownTo(entered, j))[c] == (if c.Stop? && j <= c.j < entered then 1 else 0)
    decreases entered - j
  {
    if j < entered {
      CountStops(entered, j + 1, c);
      CountMaybe(StopsDownTo(entered, j + 1), true, Stop(j), c);
    }
  }

  lemma ShutdownOneMore(instances: seq<Instance>, i: nat, c: Call)
    requires i < |instances|
    ensures multiset(ShutdownsDownTo(instances, i))[c] == multiset(ShutdownsDownTo(instances, i + 1))[c]
                                                          + if instances[i].shutdown && c == Shutdown(i) then 1 else 0
  {
    CountMaybe(ShutdownsDownTo(instances, i + 1), instances[i].shutdown, Shutdown(i), c);
  }

  lemma {:induction false} CountShutdowns(instances: seq<Instance>, i: nat, c: Call)
    ensures multiset(ShutdownsDownTo(instances, i))[c]
            == (if c.Shutdown? && i <= c.i < |instances| && instances[c.i].shutdown then 1 else 0)
    decreases |instances| - i
  {
    hide ShutdownsDownTo;
    if i >= |instances| {
      NothingShutDown(instances, i, c);
    } else {
      CountShutdowns(instances, i + 1, c);
      ShutdownOneMore(instances, i, c);
    }
  }

  lemma PrefixCounts(a: seq<Call>, b: seq<Call>, c: Call)
    requires a <= b
    ensures multiset(a)[c] <= multiset(b)[c]
  {
    assert b == a + b[|a|..];
  }

  lemma CountBegun(instances: seq<Instance>, begun: seq<Call>, entered: nat, c: Call)
    requires Begun(instances, begun, entered)
    ensures c.Start? ==> multiset(begun)[c] == if c.j < entered then 1 else 0
    ensures c.Stop? || c.Shutdown? ==> multiset(begun)[c] == 0
    ensures multiset(begun)[c] <= 1
  {
    var n := |instances|;
    CountInit(instances, n, c);
    CountBoot(instances, n, c);
    CountStarts(entered, c);
    if entered == 0 {
      PrefixCounts(begun, RunInit(instances), c);
    }
  }

  /**
   * Exactly once. When a life is over, the extensions started are the first ones, each of them was
   * stopped exactly once and no other was, every shutdown hook ran exactly once, and no hook ran twice.
   */
  lemma EveryHookOnce(instances: seq<Instance>, calls: seq<Call>, begun: seq<Call>, entered: nat, c: Call)
    requires Whole(instances, calls, begun, entered)
    ensures multiset(calls)[c] <= 1
    ensures c.Start? ==> (c in calls <==> c.j < entered)
    ensures c.Stop? ==> (c in calls <==> Start(c.j) in calls)
    ensures c.Shutdown? ==> (c in calls <==> c.i < |instances| && instances[c.i].shutdown)
  {
    CountBegun(instances, begun, entered, c);
    CountStops(entered, 0, c);
    CountShutdowns(instances, 0, c);
    if c.Stop? {
      CountBegun(instances, begun, entered, Start(c.j));
      CountStops(entered, 0, Start(c.j));
      CountShutdowns(instances, 0, Start(c.j));
      assert Start(c.j) in calls <==> multiset(calls)[Start(c.j)] > 0;
    }
    assert c in calls <==> multiset(calls)[c] > 0;
  }

  // ---- in which order the calls come ----

  function Stage(c: Call): nat {
    match c
    case ModuleInit(_) => 0
    case Bootstrap(_) => 1
    case Start(_) => 2
    case Stop(_) => 3
    case Shutdown(_) => 4
  }

  /** By stage; going up in position while starting, and down in position while stopping. */
  predicate Precedes(c: Call, d: Call) {
    Stage(c) < Stage(d) ||
    match (c, d)
    case (ModuleInit(i), ModuleInit(k)) => i < k
    case (Bootstrap(i), Bootstrap(k)) => i < k
    case (Start(i), Start(k)) => i < k
    case (Stop(i), Stop(k)) => i > k
    case (Shutdown(i), Shutdown(k)) => i > k
    case _ => false
  }

  ghost predicate Ordered(calls: seq<Call>) {
    forall p, q | 0 <= p < q < |calls| :: Precedes(calls[p], calls[q])
  }

  lemma OrderedBoth(a: seq<Call>, b: seq<Call>)
    requires Ordered(a) && Ordered(b) && forall c, d | c in a && d in b :: Precedes(c, d)
    ensures Ordered(a + b)
  {
    hide Precedes;
    forall p, q | 0 <= p < q < |a + b|
      ensures Precedes((a + b)[p], (a + b)[q])
    {
      if p < |a| <= q {
        assert a[p] in a && b[q - |a|] in b;
      }
    }
  }

  lemma {:induction false} InitOrdered(instances: seq<Instance>, n: nat)
    requires n <= |instances|
    ensures Ordered(InitCalls(instances, n)) && forall c | c in InitCalls(instances, n) :: c.ModuleInit? && c.i < n
    ensures Ordered(BootCalls(instances, n)) && forall c | c in BootCalls(instances, n) :: c.Bootstrap? && c.i < n
  {
    if n > 0 {
      InitOrdered(instances, n - 1);
      OrderedBoth(InitCalls(instances, n - 1), if instances[n - 1].moduleInit then [ModuleInit(n - 1)] else []);
      OrderedBoth(BootCalls(instances, n - 1), if instances[n - 1].bootstrap then [Bootstrap(n - 1)] else []);
    }
  }

  lemma {:induction false} StartsOrdered(n: nat)
    ensures Ordered(StartCalls(n)) && forall c | c in StartCalls(n) :: c.Start? && c.j < n
  {
    if n > 0 {
      StartsOrdered(n - 1);
      OrderedBoth(StartCalls(n - 1), [Start(n - 1)]);
    }
  }

  lemma {:induction false} StopsOrdered(entered: nat, j: nat)
    ensures Ordered(StopsDownTo(entered, j)) && forall c | c in StopsDownTo(entered, j) :: c.Stop? && c.j >= j
    decreases entered - j
  {
    if j < entered {
      StopsOrdered(entered, j + 1);
      OrderedBoth(StopsDownTo(entered, j + 1), [Stop(j)]);
    }
  }

  lemma {:induction false} ShutdownsOrdered(instances: seq<Instance>, i: nat)
    ensures Ordered(ShutdownsDownTo(instances, i))
    ensures forall c | c in ShutdownsDownTo(instances, i) :: c.Shutdown? && c.i >= i
    decreases |instances| - i
  {
    if i < |instances| {
      ShutdownsOrdered(instances, i + 1);
      OrderedBoth(ShutdownsDownTo(instances, i + 1), if instances[i].shutdown then [Shutdown(i)] else []);
    }
  }

  /** The calls of a start that goes through. */
  lemma StartOrdered(instances: seq<Instance>, entered: nat)
    ensures Ordered(RunInit(instances) + StartCalls(entered))
    ensures forall c | c in RunInit(instances) + StartCalls(entered) :: Stage(c) <= 2
  {
    InitOrdered(instances, |instances|);
    StartsOrdered(entered);
    OrderedBoth(InitCalls(instances, |instances|), BootCalls(instances, |instances|));
    OrderedBoth(RunInit(instances), StartCalls(entered));
  }

  lemma PrefixOrdered(a: seq<Call>, b: seq<Call>)
    requires Ordered(b) && a <= b
    ensures Ordered(a) && forall c | c in a :: c in b
  {
    assert forall p | 0 <= p < |a| :: a[p] == b[p];
    hide Precedes;
  }

  lemma BegunOrdered(instances: seq<Instance>, begun: seq<Call>, entered: nat)
    requires Begun(instances, begun, entered)
    ensures Ordered(begun) && begun <= RunInit(instances) + StartCalls(entered)
    ensures forall c | c in begun :: Stage(c) <= 2
  {
    StartOrdered(instances, entered);
    PrefixOrdered(begun, RunInit(instances) + StartCalls(entered));
  }

  /**
   * In a complete life the init hooks come first, in the order of the instances, then the bootstrap hooks, then
   * the starts; then the stops, the last started first, and then the shutdown hooks, last instance first.
   */
  lemma LifeIsOrdered(instances: seq<Instance>, calls: seq<Call>, begun: seq<Call>, entered: nat)
    requires Whole(instances, calls, begun, entered)
    ensures Ordered(calls)
  {
    BegunOrdered(instances, begun, entered);
    StopsOrdered(entered, 0);
    ShutdownsOrdered(instances, 0);
    OrderedBoth(begun, StopsDownTo(entered, 0));
    OrderedBoth(begun + StopsDownTo(entered, 0), ShutdownsDownTo(instances, 0));
  }

  lemma InPrefix(all: seq<Call>, begun: seq<Call>, c: Call, d: Call)
    requires Ordered(all) && begun <= all && d in begun && c in all && Precedes(c, d) && !Precedes(d, c)
    ensures c in begun
  {
    var p :| 0 <= p < |all| && all[p] == c;
    var q :| 0 <= q < |begun| && begun[q] == d;
    assert all[q] == d;
    assert p < |begun|;
    assert begun[p] == c;
  }

  lemma InConcat(a: seq<Call>, b: seq<Call>, c: Call)
    ensures c in a + b <==> c in a || c in b
  {
  }

  lemma CountedIn(calls: seq<Call>, c: Call)
    ensures c in calls <==> multiset(calls)[c] > 0
  {
  }

  /** The calls of a start that goes through, hook by hook. */
  lemma InStart(instances: seq<Instance>, entered: nat, c: Call)
    ensures c in RunInit(instances) + StartCalls(entered)
            <==> match c
                 case ModuleInit(i) => i < |instances| && instances[i].moduleInit
                 case Bootstrap(i) => i < |instances| && instances[i].bootstrap
                 case Start(j) => j < entered
                 case _ => false
  {
    var n := |instances|;
    CountInit(instances, n, c);
    CountBoot(instances, n, c);
    CountStarts(entered, c);
    CountedIn(InitCalls(instances, n), c);
    CountedIn(BootCalls(instances, n), c);
    CountedIn(StartCalls(entered), c);
    InConcat(InitCalls(instances, n), BootCalls(instances, n), c);
    InConcat(RunInit(instances), StartCalls(entered), c);
  }

  lemma InWhole(instances: seq<Instance>, calls: seq<Call>, begun: seq<Call>, entered: nat, c: Call)
    requires Whole(instances, calls, begun, entered) && Stage(c) <= 2
    ensures c in calls <==> c in begun
  {
    StopsOrdered(entered, 0);
    ShutdownsOrdered(instances, 0);
    InConcat(begun, StopsDownTo(entered, 0), c);
    InConcat(begun + StopsDownTo(entered, 0), ShutdownsDownTo(instances, 0), c);
  }

  lemma WholeBegins(instances: seq<Instance>, calls: seq<Call>, begun: seq<Call>, entered: nat)
    requires Whole(instances, calls, begun, entered)
    ensures Begun(instances, begun, entered)
  {
  }

  /** No bootstrap hook runs before every init hook has, and no extension starts before both have. */
  lemma PassesAreComplete(instances: seq<Instance>, calls: seq<Call>, begun: seq<Call>, entered: nat, c: Call, d: Call)
    requires Whole(instances, calls, begun, entered) && d in calls && Stage(c) < Stage(d) <= 2
    requires c.ModuleInit? || c.Bootstrap?
    ensures c in calls <==> c.i < |instances| && if c.ModuleInit? then instances[c.i].moduleInit
                                                 else instances[c.i].bootstrap
  {
    hide Whole, Begun, Ordered, RunInit, StartCalls;
    var all := RunInit(instances) + StartCalls(entered);
    InWhole(instances, calls, begun, entered, c);
    InWhole(instances, calls, begun, entered, d);
    WholeBegins(instances, calls, begun, entered);
    BegunOrdered(instances, begun, entered);
    StartOrdered(instances, entered);
    InStart(instances, entered, c);
    if c in all {
      InPrefix(all, begun, c, d);
    } else {
      PrefixOrdered(begun, all);
    }
  }
}
