/**
 * Runs of the extension in terms of their events: in which order participants start and when a start
 * stops short, which grace periods are refused, how many calls of a stop failed, and which stop's
 * outcome later stops are given.
 */
module ExtensionFacts {
  import opened Wrappers
  import opened Sequences
  import opened ExtensionRuns

  // ---- the order of starts ----

  lemma {:induction false} StartsHave(workers: nat, schedulers: nat)
    ensures |WorkerStarts(workers)| == workers && |SchedulerStarts(schedulers)| == schedulers
    ensures forall k: nat | k < workers :: WorkerStarts(workers)[k] == StartWorker(k)
    ensures forall k: nat | k < schedulers :: SchedulerStarts(schedulers)[k] == StartScheduler(k)
    decreases workers + schedulers
  {
    if workers > 0 {
      StartsHave(workers - 1, schedulers);
      if schedulers > 0 {
        StartsHave(workers, schedulers - 1);
      }
    } else if schedulers > 0 {
      StartsHave(0, schedulers - 1);
    }
  }

  lemma StartAt(workers: nat, schedulers: nat, k: nat)
    requires k < workers + schedulers
    ensures |Starts(workers, schedulers)| == workers + schedulers
    ensures Starts(workers, schedulers)[k] == if k < workers then StartWorker(k) else StartScheduler(k - workers)
  {
    StartsHave(workers, schedulers);
  }

  lemma {:induction false} OnlyPrefix(calls: seq<Call>, starts: bool, p: nat)
    requires p <= |calls|
    ensures Only(calls[..p], starts) <= Only(calls, starts)
    decreases |calls|
  {
    if p < |calls| {
      OnlyPrefix(calls[..|calls| - 1], starts, p);
      assert calls[..|calls| - 1][..p] == calls[..p];
    } else {
      assert calls[..p] == calls;
    }
  }

  /** Where a call stands among those of its sort. */
  lemma OnlyAt(calls: seq<Call>, starts: bool, p: nat)
    requires p < |calls| && (Rank(calls[p]) == 0) == starts
    ensures var k := |Only(calls[..p], starts)|;
            k < |Only(calls, starts)| && Only(calls, starts)[k] == calls[p] && |Only(calls[..p + 1], starts)| == k + 1
  {
    assert calls[..p + 1] == calls[..p] + [calls[p]];
    OnlySnoc(calls[..p], calls[p], starts);
    OnlyPrefix(calls, starts, p + 1);
  }

  lemma OnlyGrows(calls: seq<Call>, starts: bool, p: nat, q: nat)
    requires p <= q <= |calls|
    ensures |Only(calls[..p], starts)| <= |Only(calls[..q], starts)|
  {
    OnlyPrefix(calls[..q], starts, p);
    assert calls[..q][..p] == calls[..p];
  }

  /** Workers before schedulers, each in their order. */
  predicate StartsBefore(c: Call, d: Call) {
    match (c, d)
    case (StartWorker(i), StartWorker(k)) => i < k
    case (StartScheduler(i), StartScheduler(k)) => i < k
    case _ => c.StartWorker? && d.StartScheduler?
  }

  lemma InOrderOf(u: Setup, s: State)
    requires Sound(u, s)
    ensures Only(s.calls, true) == Starts(s.workers, s.schedulers)
    ensures |Only(s.calls, true)| == s.workers + s.schedulers
    ensures s.schedulers > 0 ==> s.workers == u.workers
    ensures s.workers <= u.workers && s.schedulers <= u.schedulers
  {
    StartsHave(s.workers, s.schedulers);
  }

  /** In every run participants are started workers first, in their order, and none twice. */
  lemma StartsComeInOrder(u: Setup, events: seq<Event>, p: nat, q: nat)
    requires Distinct(u.stores) && p < q < |After(u, events).calls|
    requires var calls := After(u, events).calls; Rank(calls[p]) == 0 && Rank(calls[q]) == 0
    ensures var calls := After(u, events).calls; StartsBefore(calls[p], calls[q])
  {
    var s := After(u, events);
    EveryRunIsSound(u, events);
    hide Sound, Bounded, Growing, Nested, After, Only;
    InOrderOf(u, s);
    OnlyAt(s.calls, true, p);
    OnlyAt(s.calls, true, q);
    OnlyGrows(s.calls, true, p + 1, q);
    StartAt(s.workers, s.schedulers, |Only(s.calls[..p], true)|);
    StartAt(s.workers, s.schedulers, |Only(s.calls[..q], true)|);
  }

  lemma WorkerCalled(u: Setup, s: State, k: nat, w: nat)
    requires Sound(u, s) && k < |s.calls| && s.calls[k].StartScheduler? && w < u.workers
    ensures StartWorker(w) in s.calls
  {
    InOrderOf(u, s);
    OnlyAt(s.calls, true, k);
    StartAt(s.workers, s.schedulers, |Only(s.calls[..k], true)|);
    StartedIffEntered(s, StartWorker(w));
  }

  /** A scheduler is started only once every worker has been, so that what it adds has a consumer. */
  lemma WorkersStartFirst(u: Setup, events: seq<Event>, k: nat, w: nat)
    requires Distinct(u.stores) && k < |After(u, events).calls| && After(u, events).calls[k].StartScheduler?
    requires w < u.workers
    ensures StartWorker(w) in After(u, events).calls[..k]
  {
    var s := After(u, events);
    EveryRunIsSound(u, events);
    WorkerCalled(u, s, k, w);
    var p :| 0 <= p < |s.calls| && s.calls[p] == StartWorker(w);
    if p > k {
      StartsComeInOrder(u, events, k, p);
    }
    assert s.calls[..k][p] == StartWorker(w);
  }

  // ---- when a start stops short ----

  ghost predicate StartIsOver(s: State) {
    s.started && Starting !in s.stack
  }

  lemma LeavingKeepsOthers(u: Setup, s: State, ok: bool)
    requires Nested(u, s) && Enabled(u, s, Return(ok)) && Starting !in s.stack
    ensures var t := Leave(u, s, ok);
            && Starting !in t.stack && t.workers == s.workers && t.schedulers == s.schedulers && t.started == s.started
  {
    hide Stops;
  }

  lemma StepStartsNothing(u: Setup, s: State, e: Event)
    requires Sound(u, s) && StartIsOver(s) && Enabled(u, s, e)
    ensures var t := Do(u, s, e); StartIsOver(t) && t.workers == s.workers && t.schedulers == s.schedulers
  {
    hide Stops, Bounded, Growing, Recorded;
    if e.Return? {
      LeavingKeepsOthers(u, s, e.ok);
    }
  }

  lemma {:induction false} NothingMoreStarts(u: Setup, s: State, more: seq<Event>)
    requires Sound(u, s) && StartIsOver(s)
    ensures var t := From(u, s, more);
            Sound(u, t) && StartIsOver(t) && t.workers == s.workers && t.schedulers == s.schedulers
  {
    if more != [] {
      hide Sound, StartIsOver, Do, Enabled;
      NothingMoreStarts(u, s, more[..|more| - 1]);
      var before := From(u, s, more[..|more| - 1]);
      if Enabled(u, before, more[|more| - 1]) {
        StepStartsNothing(u, before, more[|more| - 1]);
        StepKeepsSound(u, before, more[|more| - 1]);
      }
    }
  }

  /** A participant whose start throws ends the start for good: nothing is started after it, whatever is called. */
  lemma ThrownStartIsOver(u: Setup, events: seq<Event>, more: seq<Event>)
    requires Distinct(u.stores)
    requires var s := After(u, events); s.stack != [] && s.stack[|s.stack| - 1] == Starting
    ensures var s := After(u, events);
            var t := From(u, Do(u, s, Return(false)), more);
            t.workers == s.workers && t.schedulers == s.schedulers
  {
    var s := After(u, events);
    EveryRunIsSound(u, events);
    StepKeepsSound(u, s, Return(false));
    PopFrame(u, s);
    NothingMoreStarts(u, Do(u, s, Return(false)), more);
  }

  /** No participant's start throws. */
  ghost predicate Unthrown(u: Setup, events: seq<Event>)
  {
    events == [] || (
      var s := After(u, events[..|events| - 1]);
      && Unthrown(u, events[..|events| - 1])
      && (events[|events| - 1] == Return(false) ==> s.stack == [] || s.stack[|s.stack| - 1] != Starting))
  }

  ghost predicate AllEntered(u: Setup, s: State) {
    s.workers >= u.workers && s.schedulers >= u.schedulers
  }

  lemma StepStartsAll(u: Setup, s: State, e: Event)
    requires Sound(u, s) && Enabled(u, s, e) && (StartIsOver(s) ==> AllEntered(u, s))
    requires e == Return(false) ==> s.stack == [] || s.stack[|s.stack| - 1] != Starting
    ensures StartIsOver(Do(u, s, e)) ==> AllEntered(u, Do(u, s, e))
  {
    hide Stops, Bounded, Growing, Recorded;
    if e.Return? {
      PopFrame(u, s);
    }
    if StartIsOver(s) {
      StepStartsNothing(u, s, e);
    }
  }

  lemma NotStartedYet()
    ensures !StartIsOver(INITIAL)
  {
  }

  /** Unless one throws, every participant is started by the time start has returned. */
  lemma {:induction false} AllAreStarted(u: Setup, events: seq<Event>)
    requires Distinct(u.stores) && Unthrown(u, events)
    ensures StartIsOver(After(u, events)) ==> AllEntered(u, After(u, events))
  {
    if events != [] {
      hide Sound, Do, Enabled, StartIsOver, AllEntered;
      var earlier := events[..|events| - 1];
      AllAreStarted(u, earlier);
      EveryRunIsSound(u, earlier);
      if Enabled(u, After(u, earlier), events[|events| - 1]) {
        StepStartsAll(u, After(u, earlier), events[|events| - 1]);
      }
    } else {
      NotStartedYet();
    }
  }

  // ---- what a stop's outcome is ----

  /** The first stop makes a plan exactly when its grace period is a number of milliseconds a timer takes. */
  lemma GraceDecides(u: Setup, events: seq<Event>, graceMs: int)
    requires After(u, events).stopped.None?
    ensures var s, t := After(u, events), After(u, events + [CallStop(graceMs)]);
            if 0 <= graceMs < 0x8000_0000 then |t.plans| == |s.plans| + 1
            else t == s.(stopped := Some(Refused))
  {
    hide Stops, Planned;
    assert (events + [CallStop(graceMs)])[..|events|] == events;
  }

  /** How many calls of a stop have failed. */
  ghost function Failures(u: Setup, events: seq<Event>, plan: nat): nat
  {
    if events == [] then 0
    else
      var s, e := After(u, events[..|events| - 1]), events[|events| - 1];
      Failures(u, events[..|events| - 1], plan)
      + if Enabled(u, s, e) && (e == Settle(plan, false)
                                || (e == Return(false) && s.stack[|s.stack| - 1] == Stopping(plan))) then 1 else 0
  }

  lemma StepCountsErrors(u: Setup, s: State, e: Event, plan: nat)
    requires Enabled(u, s, e)
    ensures plan < |s.plans| ==>
              && plan < |Do(u, s, e).plans|
              && Do(u, s, e).plans[plan].errors == s.plans[plan].errors
                 + if e == Settle(plan, false) || (e == Return(false) && s.stack[|s.stack| - 1] == Stopping(plan))
                   then 1 else 0
    ensures |s.plans| <= plan < |Do(u, s, e).plans| ==> Do(u, s, e).plans[plan].errors == 0
    ensures plan >= |s.plans| ==>
              e != Settle(plan, false) && !(e == Return(false) && s.stack[|s.stack| - 1] == Stopping(plan))
  {
    hide Stops;
  }

  lemma PlansStay(u: Setup, s: State, e: Event)
    requires Enabled(u, s, e)
    ensures |s.plans| <= |Do(u, s, e).plans|
  {
    hide Stops;
  }

  /** In every run the errors of a stop are its failed calls: it fails, if it does, because of just those. */
  lemma {:induction false} ErrorsAreCounted(u: Setup, events: seq<Event>, plan: nat)
    ensures var s := After(u, events);
            Failures(u, events, plan) == if plan < |s.plans| then s.plans[plan].errors else 0
  {
    if events != [] {
      hide Do, Enabled;
      var earlier := events[..|events| - 1];
      ErrorsAreCounted(u, earlier, plan);
      if Enabled(u, After(u, earlier), events[|events| - 1]) {
        StepCountsErrors(u, After(u, earlier), events[|events| - 1], plan);
        PlansStay(u, After(u, earlier), events[|events| - 1]);
      }
    }
  }

  // ---- which stop is remembered ----

  /** The plans whose first calls are in progress were made one after the other. */
  ghost predicate InnerAreLater(s: State) {
    && (forall i, j | 0 <= i < j < |s.stack| && s.stack[i].Stopping? && s.stack[j].Stopping? ::
          s.stack[i].plan < s.stack[j].plan)
    && (forall i | 0 <= i < |s.stack| && s.stack[i].Stopping? :: s.stack[i].plan < |s.plans|)
  }

  /** The first plan's call is in progress, or its outcome is remembered and no such call is left. */
  ghost predicate FirstComesLast(s: State) {
    s.plans != [] ==>
      || Stopping(0) in s.stack
      || (s.stopped == Some(Promised(0)) && forall f | f in s.stack :: f.Starting?)
  }

  ghost predicate Outermost(s: State) {
    InnerAreLater(s) && FirstComesLast(s)
  }

  lemma InPopped(s: State, t: State, f: Frame)
    requires s.stack != [] && t.stack == s.stack[..|s.stack| - 1]
    ensures f in s.stack <==> f in t.stack || f == s.stack[|s.stack| - 1]
  {
    assert s.stack == t.stack + [s.stack[|s.stack| - 1]];
  }

  /** Below the first plan's call there is none of another plan. */
  lemma NothingBelowFirst(s: State, t: State)
    requires InnerAreLater(s) && s.stack != [] && t.stack == s.stack[..|s.stack| - 1]
    requires s.stack[|s.stack| - 1] == Stopping(0)
    ensures forall f | f in t.stack :: f.Starting?
  {
    forall f | f in t.stack
      ensures f.Starting?
    {
      var i :| 0 <= i < |t.stack| && t.stack[i] == f;
      assert s.stack[i] == f;
    }
  }

  lemma PopKeepsFirst(s: State, t: State)
    requires Outermost(s) && s.stack != [] && t.stack == s.stack[..|s.stack| - 1] && |t.plans| == |s.plans|
    requires var top := s.stack[|s.stack| - 1];
             t.stopped == if top.Stopping? then Some(Promised(top.plan)) else s.stopped
    ensures FirstComesLast(t)
  {
    hide InnerAreLater;
    var top := s.stack[|s.stack| - 1];
    if s.plans == [] {
      assert t.plans == [];
    } else if top == Stopping(0) {
      NothingBelowFirst(s, t);
    } else {
      forall f
        ensures f in s.stack <==> f in t.stack || f == top
      {
        InPopped(s, t, f);
      }
      assert top in s.stack;
    }
  }

  lemma PopKeepsOutermost(s: State, t: State)
    requires Outermost(s) && s.stack != [] && t.stack == s.stack[..|s.stack| - 1] && |t.plans| == |s.plans|
    requires var top := s.stack[|s.stack| - 1];
             t.stopped == if top.Stopping? then Some(Promised(top.plan)) else s.stopped
    ensures Outermost(t)
  {
    PopKeepsFirst(s, t);
    hide FirstComesLast;
  }

  lemma SameOutermost(s: State, t: State)
    requires Outermost(s) && t.stack == s.stack && t.stopped == s.stopped && |t.plans| == |s.plans|
    ensures Outermost(t)
  {
  }

  lemma EnterKeepsOutermost(u: Setup, s: State)
    requires Outermost(s) && s.stack != [] && s.stack[|s.stack| - 1].Starting?
    ensures Outermost(EnterNext(u, s))
  {
    hide Outermost;
    if s.workers < u.workers || s.schedulers < u.schedulers {
      SameOutermost(s, EnterNext(u, s));
    } else {
      PopKeepsOutermost(s, EnterNext(u, s));
    }
  }

  lemma StartKeepsOutermost(u: Setup, s: State)
    requires Outermost(s)
    ensures Outermost(Start(u, s))
  {
    if !s.started {
      var t := s.(started := true, stack := s.stack + [Starting]);
      assert forall f :: f in t.stack <==> f in s.stack || f == Starting;
      assert Outermost(t);
      EnterKeepsOutermost(u, t);
    }
  }

  lemma StopKeepsOutermost(u: Setup, s: State, graceMs: int)
    requires Outermost(s)
    ensures Outermost(Stop(u, s, graceMs))
  {
    hide Stops, Planned;
    var t := Stop(u, s, graceMs);
    if |t.stack| > |s.stack| {
      assert forall f :: f in t.stack <==> f in s.stack || f == Stopping(|s.plans|);
    }
  }

  lemma StepKeepsOutermost(u: Setup, s: State, e: Event)
    requires Outermost(s) && Enabled(u, s, e)
    ensures Outermost(Do(u, s, e))
  {
    hide Stops, Planned, Outermost;
    match e {
      case CallStart => StartKeepsOutermost(u, s);
      case CallStop(graceMs) => StopKeepsOutermost(u, s, graceMs);
      case Return(ok) =>
        if s.stack[|s.stack| - 1].Starting? {
          if ok {
            EnterKeepsOutermost(u, s);
          } else {
            PopKeepsOutermost(s, Do(u, s, e));
          }
        } else if ok || Over(u, Advance(u, s, s.stack[|s.stack| - 1].plan, false).plans[s.stack[|s.stack| - 1].plan]) {
          PopKeepsOutermost(s, Do(u, s, e));
        } else {
          SameOutermost(s, Do(u, s, e));
        }
      case Settle(_, _) => SameOutermost(s, Do(u, s, e));
    }
  }

  lemma NothingIsNested()
    ensures Outermost(INITIAL)
  {
  }

  lemma {:induction false} EveryRunIsNested(u: Setup, events: seq<Event>)
    ensures Outermost(After(u, events))
  {
    if events != [] {
      hide Outermost, Do, Enabled;
      var earlier := events[..|events| - 1];
      EveryRunIsNested(u, earlier);
      if Enabled(u, After(u, earlier), events[|events| - 1]) {
        StepKeepsOutermost(u, After(u, earlier), events[|events| - 1]);
      }
    } else {
      NothingIsNested();
    }
  }

  /**
   * However many plans were made, from inside one another's first calls, once those calls have returned it is
   * the first one, the outermost, whose outcome every later stop is given.
   */
  lemma TheOutermostIsRemembered(u: Setup, events: seq<Event>)
    requires var s := After(u, events); s.plans != [] && forall f | f in s.stack :: f.Starting?
    ensures After(u, events).stopped == Some(Promised(0))
  {
    EveryRunIsNested(u, events);
  }
}
