/**
 * The extension that starts and stops an application's workers, schedulers and job stores, as an
 * object. Start and Stop may be called at any time, Return is the innermost call in progress handing
 * back control, and Settle is what happens when an awaited stop settles. Each performs one step of
 * ExtensionRuns.
 */
module JobsExtension {
  import opened Wrappers
  import opened Sequences
  import opened ExtensionRuns

  class Extension {
    const workers: nat
    const schedulers: nat
    const stores: seq<nat>
    var enteredWorkers: nat
    var enteredSchedulers: nat
    var started: bool
    /** Every stop that was not refused, with the calls it has planned. */
    var plans: seq<Plan>
    var stopped: Option<Promise>
    var stack: seq<Frame>
    /** Every call to a participant or store, oldest first. */
    ghost var calls: seq<Call>

    function Setup(): Setup {
      ExtensionRuns.Setup(workers, schedulers, stores)
    }

    ghost function View(): State
      reads this
    {
      State(started, enteredWorkers, enteredSchedulers, plans, stopped, stack, calls)
    }

    constructor (workers: nat, schedulers: nat, stores: seq<nat>)
      ensures View() == INITIAL && Distinct(this.stores)
      ensures this.workers == workers && this.schedulers == schedulers && this.stores == FirstOccurrences(stores)
    {
      this.workers, this.schedulers, this.stores := workers, schedulers, FirstOccurrences(stores);
      enteredWorkers, enteredSchedulers, started := 0, 0, false;
      plans, stopped, stack, calls := [], None, [], [];
    }

    // ---- starting ----

    /** Workers first, then schedulers; a participant counts as entered before its start is tried. */
    method EnterNext()
      requires stack != []
      modifies this`enteredWorkers, this`enteredSchedulers, this`stack, this`calls
      ensures View() == ExtensionRuns.EnterNext(Setup(), old(View()))
    {
      if enteredWorkers < workers {
        enteredWorkers := enteredWorkers + 1;
        calls := calls + [StartWorker(enteredWorkers - 1)];
      } else if enteredSchedulers < schedulers {
        enteredSchedulers := enteredSchedulers + 1;
        calls := calls + [StartScheduler(enteredSchedulers - 1)];
      } else {
        stack := stack[..|stack| - 1];
      }
    }

    method Start()
      modifies this
      ensures View() == ExtensionRuns.Start(Setup(), old(View()))
    {
      if started {
        return;
      }
      started := true;
      stack := stack + [Starting];
      EnterNext();
    }

    // ---- stopping ----

    /** Plans the stops of what has been entered by now and makes the first, unless a stop is remembered. */
    method Stop(graceMs: int)
      modifies this
      ensures View() == ExtensionRuns.Stop(Setup(), old(View()), graceMs)
    {
      if stopped.Some? {
        return;
      }
      if !ValidGrace(graceMs) {
        stopped := Some(Refused);
        return;
      }
      hide Stops;
      var plan := |plans|;
      plans := plans + [Plan(enteredWorkers, enteredSchedulers, 0, 0)];
      var stops := Planned(Setup(), plans[plan]);
      if stops == [] {
        stopped := Some(Promised(plan));
      } else {
        stack := stack + [Stopping(plan)];
        calls := calls + [stops[0]];
        assert stops[..1] == [stops[0]];
      }
    }

    /** One call of a plan is done; the next one is made in any case, also after one that failed. */
    method Proceed(plan: nat, ok: bool)
      requires plan < |plans|
      modifies this`plans, this`calls
      ensures View() == Advance(Setup(), old(View()), plan, ok)
    {
      hide Stops;
      var p := plans[plan];
      plans := plans[plan := p.(done := p.done + 1, errors := if ok then p.errors else p.errors + 1)];
      var stops := Planned(Setup(), p);
      if p.done + 1 < |stops| {
        calls := calls + [stops[p.done + 1]];
      }
    }

    /** A participant's start returns or throws; or a stop's first calls throw or one of them returns its promise. */
    method Return(ok: bool)
      requires Enabled(Setup(), View(), ExtensionRuns.Return(ok))
      modifies this
      ensures View() == Do(Setup(), old(View()), ExtensionRuns.Return(ok))
    {
      hide Stops;
      var top := stack[|stack| - 1];
      if top.Starting? {
        if ok {
          EnterNext();
        } else {
          stack := stack[..|stack| - 1];
        }
        return;
      }
      if !ok {
        Proceed(top.plan, false);
        if plans[top.plan].done < |Planned(Setup(), plans[top.plan])| {
          return;
        }
      }
      stack := stack[..|stack| - 1];
      stopped := Some(Promised(top.plan));
    }

    /** An awaited stop has settled, or failed, or run out of time. */
    method Settle(plan: nat, ok: bool)
      requires Enabled(Setup(), View(), ExtensionRuns.Settle(plan, ok))
      modifies this`plans, this`calls
      ensures View() == Do(Setup(), old(View()), ExtensionRuns.Settle(plan, ok))
    {
      Proceed(plan, ok);
    }
  }
}
