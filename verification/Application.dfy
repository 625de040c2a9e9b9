/**
 * One application as an object. Init and Dispose may be called at any time, Return is the first hook of
 * a start handing back its promise, and Settle is what happens when something awaited settles. The
 * loops are those of the source; each method performs one step of LifecycleRuns.
 */
module Application {
  import opened Wrappers
  import opened Lifecycle
  import opened LifecycleRuns

  class Application {
    const instances: seq<Instance>
    const extensions: nat
    var status: Status
    var entered: seq<nat>
    /** The start that initPromise stands for. */
    var promise: Option<nat>
    var starts: seq<Point>
    var disposal: Point
    var open: nat
    /** Every hook call, oldest first; and what had been called and entered when cleaning up began. */
    ghost var calls: seq<Call>
    ghost var begun: seq<Call>
    ghost var count: nat

    function App(): App {
      LifecycleRuns.App(instances, extensions)
    }

    ghost function View(): State
      reads this
    {
      State(status, entered, promise, starts, disposal, open, calls, begun, count)
    }

    constructor (instances: seq<Instance>, extensions: nat)
      ensures View() == INITIAL && this.instances == instances && this.extensions == extensions
    {
      this.instances, this.extensions := instances, extensions;
      status, entered, promise, starts, disposal, open := Created, [], None, [], Uncalled, 0;
      calls, begun, count := [], [], 0;
    }

    method FindBoot(start: nat) returns (p: Point)
      ensures p == NextBoot(instances, start)
    {
      var i := start;
      while i < |instances|
        invariant NextBoot(instances, start) == NextBoot(instances, i)
      {
        if instances[i].bootstrap {
          return AtBoot(i);
        }
        i := i + 1;
      }
      return AtReady;
    }

    /** The first pass goes on at an instance; after the last one the second pass begins. */
    method FindInit(start: nat) returns (p: Point)
      ensures p == NextInit(instances, start)
    {
      var i := start;
      while i < |instances|
        invariant NextInit(instances, start) == NextInit(instances, i)
      {
        if instances[i].moduleInit {
          return AtInit(i);
        }
        i := i + 1;
      }
      p := FindBoot(0);
    }

    method Init() returns (accepted: bool)
      modifies this
      ensures View() == LifecycleRuns.Init(App(), old(View()))
      ensures accepted <==> old(disposal).Uncalled?
    {
      if !disposal.Uncalled? {
        return false;
      }
      if promise.None? {
        status := Starting;
        var p := FindInit(0);
        starts := starts + [p];
        calls := calls + HookAt(p);
        if p.AtReady? {
          promise := Some(|starts| - 1);
        } else {
          open := open + 1;
        }
      }
      return true;
    }

    method Dispose()
      modifies this
      ensures View() == LifecycleRuns.Dispose(old(View()))
    {
      if !disposal.Uncalled? {
        return;
      }
      if promise.Some? {
        disposal := AwaitInit(promise.value);
      } else if status.FailedCleaned? || status.Stopped? {
        disposal := Succeeded;
      } else {
        status := Stopping;
        disposal := AtLoads;
      }
    }

    /** The innermost first hook hands back its promise: the start it belongs to is stored. */
    method Return()
      requires open > 0
      modifies this
      ensures View() == Do(App(), old(View()), LifecycleRuns.Return)
    {
      open := open - 1;
      promise := Some(open);
    }

    function Here(a: Actor): Point
      requires a.Starter? ==> a.start < |starts|
      reads this
    {
      if a.Starter? then starts[a.start] else disposal
    }

    method Move(a: Actor, p: Point)
      requires Exists(View(), a)
      modifies this`starts, this`disposal
      ensures View() == Put(old(View()), a, p)
    {
      if a.Starter? {
        starts := starts[a.start := p];
      } else {
        disposal := p;
      }
    }

    method Hook(a: Actor, ok: bool, i: nat, first: bool)
      requires Exists(View(), a) && Here(a) == if first then AtInit(i) else AtBoot(i)
      modifies this
      ensures View() == Resume(App(), old(View()), a, ok)
    {
      if !ok {
        Move(a, AtLoads);
        return;
      }
      var p: Point;
      if first {
        p := FindInit(i + 1);
      } else {
        p := FindBoot(i + 1);
      }
      Move(a, p);
      calls := calls + HookAt(p);
    }

    /** An extension is entered before its start is awaited, so that one that fails is stopped too. */
    method EnterNext(a: Actor, j: nat)
      requires Exists(View(), a)
      modifies this
      ensures View() == NextStart(App(), old(View()), a, j)
    {
      if j < extensions {
        entered := entered + [j];
        Move(a, AtStart(j));
        calls := calls + [Start(j)];
      } else {
        status := Running;
        Move(a, Succeeded);
      }
    }

    /**
     * The reverse pass goes down to the next instance with a shutdown hook; after the last one the clean-up is
     * over.
     */
    method ShutDown(a: Actor, start: nat)
      requires Exists(View(), a)
      modifies this
      ensures View() == ShutdownFrom(App(), old(View()), a, start)
    {
      var i := if start < |instances| then start else |instances|;
      while i > 0
        invariant 0 <= i <= |instances| && unchanged(this)
        invariant LastShutdown(instances, if start < |instances| then start else |instances|)
                  == LastShutdown(instances, i)
      {
        if instances[i - 1].shutdown {
          calls := calls + [Shutdown(i - 1)];
          Move(a, AtShutdown(i - 1));
          return;
        }
        i := i - 1;
      }
      if a.Disposer? {
        status := Stopped;
        Move(a, Succeeded);
      } else {
        status := FailedCleaned;
        Move(a, Failed);
      }
    }

    /** Goes down the list of entered extensions, past positions it no longer has, and then empties it. */
    method StopEntered(a: Actor, k: nat)
      requires Exists(View(), a)
      modifies this
      ensures View() == StopFrom(App(), old(View()), a, k)
    {
      var index := k;
      while index > 0 && index - 1 >= |entered|
        invariant 0 <= index <= k && (index == k || index >= |entered|) && unchanged(this)
      {
        index := index - 1;
      }
      if index > 0 {
        calls := calls + [Stop(entered[index - 1])];
        Move(a, AtStop(index - 1));
      } else {
        entered := [];
        ShutDown(a, |instances|);
      }
    }

    method Settle(a: Actor, ok: bool)
      requires Enabled(View(), LifecycleRuns.Settle(a, ok))
      modifies this
      ensures View() == Do(App(), old(View()), LifecycleRuns.Settle(a, ok))
    {
      match Here(a) {
        case AtInit(i) => Hook(a, ok, i, true);
        case AtBoot(i) => Hook(a, ok, i, false);
        case AtReady => EnterNext(a, 0);
        case AtStart(j) => if ok { EnterNext(a, j + 1); } else { Move(a, AtLoads); }
        case AwaitInit(start) =>
          if (start < |starts| && starts[start].Failed?) || status.FailedCleaned? || status.Stopped? {
            Move(a, Succeeded);
          } else {
            status := Stopping;
            Move(a, AtLoads);
          }
        case AtLoads =>
          begun, count := calls, |entered|;
          StopEntered(a, |entered|);
        case AtStop(k) => StopEntered(a, k);
        case AtShutdown(i) => ShutDown(a, i);
      }
    }
  }
}
