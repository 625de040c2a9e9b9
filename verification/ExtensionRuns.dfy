/**
 * Every run of the extension for workers, schedulers and stores. Start and stop may be called at any
 * time, also by a participant from inside the call that starts or stops it. The first call of a stop
 * is made before that stop is remembered: until it returns, another stop makes a plan of its own.
 */
module ExtensionRuns {
  import opened Wrappers
  import opened Sequences

  /** Calls to participants by position, and to stores by identity. */
  datatype Call =
    | StartWorker(i: nat)
    | StartScheduler(i: nat)
    | StopScheduler(i: nat)
    | StopWorker(i: nat)
    | CloseStore(id: nat)

  const MAX_GRACE: int := 2_147_483_647

  predicate ValidGrace(graceMs: int) {
    0 <= graceMs <= MAX_GRACE
  }

  // ---- the order of calls ----

  function WorkerStarts(n: nat): seq<Call>
  {
    if n == 0 then [] else WorkerStarts(n - 1) + [StartWorker(n - 1)]
  }

  function SchedulerStarts(n: nat): seq<Call>
  {
    if n == 0 then [] else SchedulerStarts(n - 1) + [StartScheduler(n - 1)]
  }

  function SchedulerStops(n: nat): (r: seq<Call>)
    ensures |r| == n && forall k | 0 <= k < n :: r[k] == StopScheduler(n - 1 - k)
  {
    if n == 0 then [] else [StopScheduler(n - 1)] + SchedulerStops(n - 1)
  }

  function WorkerStops(n: nat): (r: seq<Call>)
    ensures |r| == n && forall k | 0 <= k < n :: r[k] == StopWorker(n - 1 - k)
  {
    if n == 0 then [] else [StopWorker(n - 1)] + WorkerStops(n - 1)
  }

  function Closes(stores: seq<nat>): (r: seq<Call>)
    ensures |r| == |stores| && forall k | 0 <= k < |r| :: r[k] == CloseStore(stores[|stores| - 1 - k])
  {
    if stores == [] then [] else [CloseStore(stores[|stores| - 1])] + Closes(stores[..|stores| - 1])
  }

  function Starts(workers: nat, schedulers: nat): seq<Call> {
    WorkerStarts(workers) + SchedulerStarts(schedulers)
  }

  /** Schedulers first, so that no scheduler adds work to a worker that drains; stores last. */
  function Stops(schedulers: nat, workers: nat, stores: seq<nat>): seq<Call> {
    SchedulerStops(schedulers) + WorkerStops(workers) + Closes(stores)
  }

  function Rank(c: Call): nat {
    match c
    case StartWorker(_) => 0
    case StartScheduler(_) => 0
    case StopScheduler(_) => 1
    case StopWorker(_) => 2
    case CloseStore(_) => 3
  }

  lemma StopAt(schedulers: nat, workers: nat, stores: seq<nat>, k: nat)
    requires k < |Stops(schedulers, workers, stores)|
    ensures Stops(schedulers, workers, stores)[k] ==
            if k < schedulers then StopScheduler(schedulers - 1 - k)
            else if k < schedulers + workers then StopWorker(workers - 1 - (k - schedulers))
            else CloseStore(stores[|stores| - 1 - (k - schedulers - workers)])
  {
  }

  /** Schedulers before workers before stores, and in each kind the last one first. */
  ghost predicate StopsBefore(stores: seq<nat>, c: Call, d: Call) {
    match (c, d)
    case (StopScheduler(i), StopScheduler(k)) => i > k
    case (StopWorker(i), StopWorker(k)) => i > k
    case (CloseStore(i), CloseStore(k)) => exists x, y :: 0 <= y < x < |stores| && stores[x] == i && stores[y] == k
    case _ => (c.StopScheduler? && !d.StopScheduler?) || (c.StopWorker? && d.CloseStore?)
  }

  /** Scheduler stops before worker stops before store closes, in each kind the last one first, and no call twice. */
  lemma StopsAreOrdered(schedulers: nat, workers: nat, stores: seq<nat>)
    requires Distinct(stores)
    ensures var stops := Stops(schedulers, workers, stores);
            && Distinct(stops)
            && (forall i, j | 0 <= i < j < |stops| :: StopsBefore(stores, stops[i], stops[j]))
            && (forall i, j | 0 <= i < j < |stops| :: Rank(stops[i]) <= Rank(stops[j]))
  {
    var stops := Stops(schedulers, workers, stores);
    forall i, j | 0 <= i < j < |stops|
      ensures stops[i] != stops[j] && Rank(stops[i]) <= Rank(stops[j]) && StopsBefore(stores, stops[i], stops[j])
    {
      StopAt(schedulers, workers, stores, i);
      StopAt(schedulers, workers, stores, j);
    }
  }

  lemma {:induction false} InStarts(workers: nat, schedulers: nat, c: Call)
    ensures c in Starts(workers, schedulers)
            <==> (c.StartWorker? && c.i < workers) || (c.StartScheduler? && c.i < schedulers)
    decreases workers + schedulers
  {
    if schedulers > 0 {
      InStarts(workers, schedulers - 1, c);
      assert Starts(workers, schedulers) == Starts(workers, schedulers - 1) + [StartScheduler(schedulers - 1)];
    } else if workers > 0 {
      InStarts(workers - 1, 0, c);
      assert Starts(workers, 0) == WorkerStarts(workers) && Starts(workers - 1, 0) == WorkerStarts(workers - 1);
    }
  }

  lemma InStops(schedulers: nat, workers: nat, stores: seq<nat>, c: Call)
    ensures c in Stops(schedulers, workers, stores)
            <==> || (c.StopScheduler? && c.i < schedulers) || (c.StopWorker? && c.i < workers)
                 || (c.CloseStore? && c.id in stores)
  {
    var stops := Stops(schedulers, workers, stores);
    if c in stops {
      var k :| 0 <= k < |stops| && stops[k] == c;
      StopAt(schedulers, workers, stores, k);
    }
    if c.StopScheduler? && c.i < schedulers {
      StopAt(schedulers, workers, stores, schedulers - 1 - c.i);
    }
    if c.StopWorker? && c.i < workers {
      StopAt(schedulers, workers, stores, schedulers + workers - 1 - c.i);
    }
    if c.CloseStore? && c.id in stores {
      var m :| 0 <= m < |stores| && stores[m] == c.id;
      StopAt(schedulers, workers, stores, schedulers + workers + |stores| - 1 - m);
    }
  }

  // ---- one step ----

  /** How many workers and schedulers the extension was given, and its stores, each once. */
  datatype Setup = Setup(workers: nat, schedulers: nat, stores: seq<nat>)

  /** One stop: what had been entered when it planned, how many of its calls are done, and how many failed. */
  datatype Plan = Plan(workers: nat, schedulers: nat, done: nat, errors: nat)

  /** The outcome that later stops return: a refused grace period, or that of a plan. */
  datatype Promise = Refused | Promised(plan: nat)

  /** A call in progress: that of a participant being started, or one of a stop not yet remembered. */
  datatype Frame = Starting | Stopping(plan: nat)

  /** `workers` and `schedulers` count those entered; `stack` holds the calls in progress, the innermost last. */
  datatype State = State(
    started: bool,
    workers: nat,
    schedulers: nat,
    plans: seq<Plan>,
    stopped: Option<Promise>,
    stack: seq<Frame>,
    calls: seq<Call>)

  datatype Event = CallStart | CallStop(graceMs: int) | Return(ok: bool) | Settle(plan: nat, ok: bool)

  const INITIAL: State := State(false, 0, 0, [], None, [], [])

  function Planned(u: Setup, p: Plan): seq<Call> {
    Stops(p.schedulers, p.workers, u.stores)
  }

  predicate Over(u: Setup, p: Plan) {
    p.done >= |Planned(u, p)|
  }

  /** The calls a plan has made: those done and the one in progress. */
  function Made(u: Setup, p: Plan): seq<Call> {
    if Over(u, p) then Planned(u, p) else Planned(u, p)[..p.done + 1]
  }

  /** The call a plan makes when the one in progress is done, if one is left. */
  function Next(u: Setup, p: Plan): seq<Call> {
    if p.done + 1 < |Planned(u, p)| then [Planned(u, p)[p.done + 1]] else []
  }

  function Pop(s: State): State
    requires s.stack != []
  {
    s.(stack := s.stack[..|s.stack| - 1])
  }

  /** The next participant is entered, and then its start is called; after the last one start returns. */
  function EnterNext(u: Setup, s: State): State
    requires s.stack != []
  {
    if s.workers < u.workers then s.(workers := s.workers + 1, calls := s.calls + [StartWorker(s.workers)])
    else if s.schedulers < u.schedulers then
      s.(schedulers := s.schedulers + 1, calls := s.calls + [StartScheduler(s.schedulers)])
    else Pop(s)
  }

  function Start(u: Setup, s: State): State {
    if s.started then s else EnterNext(u, s.(started := true, stack := s.stack + [Starting]))
  }

  /** `stopped ??= stopAll()`: a plan whose first call has to return is not remembered yet. */
  function Stop(u: Setup, s: State, graceMs: int): State {
    if s.stopped.Some? then s
    else if !ValidGrace(graceMs) then s.(stopped := Some(Refused))
    else
      var p := Plan(s.workers, s.schedulers, 0, 0);
      var planned := s.(plans := s.plans + [p]);
      if Over(u, p) then planned.(stopped := Some(Promised(|s.plans|)))
      else planned.(stack := s.stack + [Stopping(|s.plans|)], calls := s.calls + Made(u, p))
  }

  /** The call in progress of a plan is done, well or badly, and the next one is made in any case. */
  function Advance(u: Setup, s: State, plan: nat, ok: bool): State
    requires plan < |s.plans|
  {
    var p := s.plans[plan];
    s.(plans := s.plans[plan := p.(done := p.done + 1, errors := if ok then p.errors else p.errors + 1)],
       calls := s.calls + Next(u, p))
  }

  /** While a call is in progress nothing that is awaited can settle. */
  predicate Enabled(u: Setup, s: State, e: Event) {
    match e
    case CallStart => true
    case CallStop(_) => true
    case Return(_) => s.stack != [] && (s.stack[|s.stack| - 1].Stopping? ==> s.stack[|s.stack| - 1].plan < |s.plans|)
    case Settle(plan, _) => s.stack == [] && plan < |s.plans| && !Over(u, s.plans[plan])
  }

  /** The innermost call hands back control: it returns, a stop's call with a promise, or it throws. */
  function Leave(u: Setup, s: State, ok: bool): State
    requires Enabled(u, s, Return(ok))
  {
    match s.stack[|s.stack| - 1]
    case Starting => if ok then EnterNext(u, s) else Pop(s)
    case Stopping(plan) =>
      if ok then Pop(s).(stopped := Some(Promised(plan)))
      else
        var t := Advance(u, s, plan, false);
        if Over(u, t.plans[plan]) then Pop(t).(stopped := Some(Promised(plan))) else t
  }

  function Do(u: Setup, s: State, e: Event): State
    requires Enabled(u, s, e)
  {
    match e
    case CallStart => Start(u, s)
    case CallStop(graceMs) => Stop(u, s, graceMs)
    case Return(ok) => Leave(u, s, ok)
    case Settle(plan, ok) => Advance(u, s, plan, ok)
  }

  /** Any events from a state on; one that cannot happen is skipped. */
  function From(u: Setup, s: State, events: seq<Event>): State
  {
    if events == [] then s
    else
      var before := From(u, s, events[..|events| - 1]);
      if Enabled(u, before, events[|events| - 1]) then Do(u, before, events[|events| - 1]) else before
  }

  function After(u: Setup, events: seq<Event>): State {
    From(u, INITIAL, events)
  }

  /** A valid stop from inside a stop's first call. */
  predicate Reenters(s: State, e: Event) {
    e.CallStop? && ValidGrace(e.graceMs) && s.stopped.None? && exists f | f in s.stack :: f.Stopping?
  }

  /** No valid stop is called from inside the first call of another. */
  ghost predicate Calm(u: Setup, events: seq<Event>)
  {
    events == [] || (
      && Calm(u, events[..|events| - 1])
      && !Reenters(After(u, events[..|events| - 1]), events[|events| - 1]))
  }

  /** Nothing is in progress and nothing is awaited. */
  predicate Quiet(u: Setup, s: State) {
    s.stack == [] && forall p | p in s.plans :: Over(u, p)
  }

  // ---- the starts and the stops among all calls ----

  function Only(calls: seq<Call>, starts: bool): seq<Call>
  {
    if calls == [] then []
    else
      var c := calls[|calls| - 1];
      Only(calls[..|calls| - 1], starts) + if (Rank(c) == 0) == starts then [c] else []
  }

  lemma OnlySnoc(calls: seq<Call>, c: Call, starts: bool)
    ensures Only(calls + [c], starts) == Only(calls, starts) + if (Rank(c) == 0) == starts then [c] else []
  {
    assert (calls + [c])[..|calls|] == calls;
  }

  lemma OnlyOneMore(calls: seq<Call>, last: Call, starts: bool, c: Call)
    ensures multiset(Only(calls + [last], starts))[c] ==
            multiset(Only(calls, starts))[c] + if (Rank(last) == 0) == starts && c == last then 1 else 0
    ensures multiset(calls + [last])[c] == multiset(calls)[c] + if c == last then 1 else 0
  {
    OnlySnoc(calls, last, starts);
    hide Only;
    if (Rank(last) == 0) != starts {
      assert Only(calls, starts) + [] == Only(calls, starts);
    }
  }

  lemma OnlyOfNothing(starts: bool, c: Call)
    ensures multiset(Only([], starts))[c] == 0
  {
  }

  lemma {:induction false} OnlyMembers(calls: seq<Call>, starts: bool, c: Call)
    ensures multiset(Only(calls, starts))[c] == if (Rank(c) == 0) == starts then multiset(calls)[c] else 0
  {
    hide Only;
    if calls == [] {
      OnlyOfNothing(starts, c);
    } else {
      var k := |calls| - 1;
      OnlyMembers(calls[..k], starts, c);
      OnlyOneMore(calls[..k], calls[k], starts, c);
      assert calls == calls[..k] + [calls[k]];
    }
  }

  // ---- what holds in every run ----

  ghost predicate Bounded(u: Setup, s: State) {
    && s.workers <= u.workers && s.schedulers <= u.schedulers && Distinct(u.stores)
    && (!s.started ==> s.workers == 0 && s.schedulers == 0)
    && (s.schedulers > 0 ==> s.workers == u.workers)
  }

  /** A later plan has at least what an earlier one has, and only the last one can be empty. */
  ghost predicate Growing(u: Setup, s: State) {
    && (forall p | 0 <= p < |s.plans| :: s.plans[p].workers <= s.workers && s.plans[p].schedulers <= s.schedulers)
    && (forall p, q | 0 <= p < q < |s.plans| ::
          s.plans[p].workers <= s.plans[q].workers && s.plans[p].schedulers <= s.plans[q].schedulers)
    && (forall p | 0 <= p < |s.plans| - 1 :: Planned(u, s.plans[p]) != [])
    && (forall p | 0 <= p < |s.plans| :: s.plans[p].done <= |Planned(u, s.plans[p])|)
  }

  /** Until a stop is remembered, the first call of every plan is in progress. */
  ghost predicate Nested(u: Setup, s: State) {
    && Distinct(s.stack)
    && (Starting in s.stack ==> s.started)
    && (forall p: nat | Stopping(p) in s.stack :: p < |s.plans| && !Over(u, s.plans[p]))
    && (s.stopped.None? ==> forall p | 0 <= p < |s.plans| :: Stopping(p) in s.stack)
  }

  lemma StepKeepsBounded(u: Setup, s: State, e: Event)
    requires Bounded(u, s) && Nested(u, s) && Enabled(u, s, e)
    ensures Bounded(u, Do(u, s, e))
  {
    hide Stops, Distinct;
    if e.Return? {
      assert s.stack[|s.stack| - 1] in s.stack;
    }
  }

  // ---- what has been called, and how often ----

  /** How many of the plans have made a call. */
  function Count(u: Setup, plans: seq<Plan>, c: Call): nat
  {
    if plans == [] then 0
    else Count(u, plans[..|plans| - 1], c) + if c in Made(u, plans[|plans| - 1]) then 1 else 0
  }

  lemma CountSnoc(u: Setup, plans: seq<Plan>, p: Plan, c: Call)
    ensures Count(u, plans + [p], c) == Count(u, plans, c) + if c in Made(u, p) then 1 else 0
  {
    hide Made;
    assert (plans + [p])[..|plans|] == plans;
  }

  lemma {:induction false} CountUpdate(u: Setup, plans: seq<Plan>, i: nat, p: Plan, c: Call)
    requires i < |plans|
    ensures Count(u, plans[i := p], c) + (if c in Made(u, plans[i]) then 1 else 0)
         == Count(u, plans, c) + (if c in Made(u, p) then 1 else 0)
  {
    hide Made;
    var k := |plans| - 1;
    if i == k {
      assert plans[i := p][..k] == plans[..k];
    } else {
      CountUpdate(u, plans[..k], i, p, c);
      assert plans[i := p][..k] == plans[..k][i := p];
    }
  }

  function Advanced(p: Plan, ok: bool): Plan {
    p.(done := p.done + 1, errors := if ok then p.errors else p.errors + 1)
  }

  lemma MadeGrows(u: Setup, p: Plan, ok: bool)
    requires Distinct(u.stores) && p.done < |Planned(u, p)|
    ensures Made(u, Advanced(p, ok)) == Made(u, p) + Next(u, p)
    ensures forall c | c in Next(u, p) :: c !in Made(u, p)
  {
    StopsAreOrdered(p.schedulers, p.workers, u.stores);
    hide Stops;
    var stops := Planned(u, p);
    if p.done + 1 < |stops| {
      assert stops[..p.done + 2] == stops[..p.done + 1] + [stops[p.done + 1]];
    } else {
      assert stops[..p.done + 1] == stops;
    }
  }

  ghost predicate StartsInOrder(s: State) {
    Only(s.calls, true) == Starts(s.workers, s.schedulers)
  }

  ghost predicate Counted(u: Setup, s: State) {
    forall c: Call | Rank(c) > 0 :: multiset(s.calls)[c] == Count(u, s.plans, c)
  }

  /** As long as there is one plan, the stops are its calls, in its order. */
  ghost predicate Single(u: Setup, s: State) {
    |s.plans| <= 1 ==> Only(s.calls, false) == if s.plans == [] then [] else Made(u, s.plans[0])
  }

  predicate Follows(calls: seq<Call>, k: nat)
    requires k < |calls|
  {
    match calls[k]
    case StopWorker(i) => StartWorker(i) in calls[..k]
    case StopScheduler(i) => StartScheduler(i) in calls[..k]
    case _ => true
  }

  /** No participant is stopped that was not started before. */
  ghost predicate StopsFollow(s: State) {
    forall k | 0 <= k < |s.calls| :: Follows(s.calls, k)
  }

  lemma FollowsSnoc(s: State, c: Call)
    requires StopsFollow(s)
    requires match c
             case StopWorker(i) => StartWorker(i) in s.calls
             case StopScheduler(i) => StartScheduler(i) in s.calls
             case _ => true
    ensures StopsFollow(s.(calls := s.calls + [c]))
  {
    var calls := s.calls + [c];
    forall k | 0 <= k < |calls|
      ensures Follows(calls, k)
    {
      if k < |s.calls| {
        assert Follows(s.calls, k) && calls[..k] == s.calls[..k];
      } else {
        assert calls[..k] == s.calls;
      }
    }
  }

  lemma StartedIffEntered(s: State, c: Call)
    requires StartsInOrder(s) && Rank(c) == 0
    ensures c in s.calls <==> if c.StartWorker? then c.i < s.workers else c.i < s.schedulers
  {
    hide Starts;
    OnlyMembers(s.calls, true, c);
    InStarts(s.workers, s.schedulers, c);
    assert c in Only(s.calls, true) <==> multiset(Only(s.calls, true))[c] > 0;
    assert c in s.calls <==> multiset(s.calls)[c] > 0;
  }

  ghost predicate Recorded(u: Setup, s: State) {
    StartsInOrder(s) && Counted(u, s) && Single(u, s) && StopsFollow(s)
  }

  lemma SameRecord(u: Setup, s: State, t: State)
    requires Recorded(u, s)
    requires t.workers == s.workers && t.schedulers == s.schedulers && t.plans == s.plans && t.calls == s.calls
    ensures Recorded(u, t)
  {
    hide Only, Starts, Count, Made;
  }

  lemma StartsSnoc(workers: nat, schedulers: nat)
    ensures Starts(workers + 1, 0) == Starts(workers, 0) + [StartWorker(workers)]
    ensures Starts(workers, schedulers + 1) == Starts(workers, schedulers) + [StartScheduler(schedulers)]
  {
  }

  /** Entering a participant adds one start. */
  lemma StartCallKeepsRecorded(u: Setup, s: State, c: Call, workers: nat, schedulers: nat)
    requires Recorded(u, s) && Rank(c) == 0 && Starts(workers, schedulers) == Starts(s.workers, s.schedulers) + [c]
    ensures Recorded(u, s.(workers := workers, schedulers := schedulers, calls := s.calls + [c]))
  {
    hide Starts, Count, Made, Only;
    var t := s.(workers := workers, schedulers := schedulers, calls := s.calls + [c]);
    OnlySnoc(s.calls, c, true);
    OnlySnoc(s.calls, c, false);
    assert Only(s.calls, false) + [] == Only(s.calls, false);
    FollowsSnoc(s, c);
    assert StopsFollow(t);
    hide StopsFollow;
    forall d: Call | Rank(d) > 0
      ensures multiset(t.calls)[d] == Count(u, t.plans, d)
    {
      assert multiset(t.calls) == multiset(s.calls) + multiset{c};
    }
  }

  lemma EnterKeepsRecorded(u: Setup, s: State)
    requires Bounded(u, s) && Recorded(u, s) && s.stack != []
    ensures Recorded(u, EnterNext(u, s))
  {
    hide Recorded, Starts;
    StartsSnoc(s.workers, s.schedulers);
    if s.workers < u.workers {
      StartCallKeepsRecorded(u, s, StartWorker(s.workers), s.workers + 1, 0);
    } else if s.schedulers < u.schedulers {
      StartCallKeepsRecorded(u, s, StartScheduler(s.schedulers), s.workers, s.schedulers + 1);
    } else {
      SameRecord(u, s, Pop(s));
    }
  }

  /** One more stop call, which every count of the plans has room for. */
  lemma StopCallKeepsRecorded(u: Setup, s: State, plans: seq<Plan>, c: Call)
    requires Recorded(u, s) && Rank(c) > 0
    requires c.StopWorker? ==> c.i < s.workers
    requires c.StopScheduler? ==> c.i < s.schedulers
    requires forall d: Call | Rank(d) > 0 :: Count(u, plans, d) == Count(u, s.plans, d) + if d == c then 1 else 0
    requires |plans| == 1 ==> Made(u, plans[0]) == (if s.plans == [] then [] else Made(u, s.plans[0])) + [c]
    requires 1 <= |plans| && |s.plans| <= |plans|
    ensures Recorded(u, s.(plans := plans, calls := s.calls + [c]))
  {
    var t := s.(plans := plans, calls := s.calls + [c]);
    if c.StopWorker? {
      StartedIffEntered(s, StartWorker(c.i));
    } else if c.StopScheduler? {
      StartedIffEntered(s, StartScheduler(c.i));
    }
    hide Starts, Count, Made, Only;
    FollowsSnoc(s, c);
    assert StopsFollow(t);
    hide StopsFollow;
    OnlySnoc(s.calls, c, true);
    OnlySnoc(s.calls, c, false);
    assert Only(s.calls, true) + [] == Only(s.calls, true);
    forall d: Call | Rank(d) > 0
      ensures multiset(t.calls)[d] == Count(u, t.plans, d)
    {
      assert multiset(t.calls) == multiset(s.calls) + multiset{c};
    }
  }

  lemma PlannedCall(u: Setup, p: Plan, c: Call)
    requires c in Planned(u, p)
    ensures Rank(c) > 0 && (c.StopWorker? ==> c.i < p.workers) && (c.StopScheduler? ==> c.i < p.schedulers)
  {
    InStops(p.schedulers, p.workers, u.stores, c);
  }

  lemma EmptyPlanKeepsRecorded(u: Setup, s: State, p: Plan)
    requires Recorded(u, s) && Made(u, p) == []
    requires forall d: Call :: Count(u, s.plans + [p], d) == Count(u, s.plans, d)
    ensures Recorded(u, s.(plans := s.plans + [p], calls := s.calls + Made(u, p)))
  {
    hide Count, Made, Only, Starts;
    assert s.calls + [] == s.calls;
  }

  lemma PlanKeepsRecorded(u: Setup, s: State)
    requires Recorded(u, s)
    ensures var p := Plan(s.workers, s.schedulers, 0, 0);
            Recorded(u, s.(plans := s.plans + [p], calls := s.calls + Made(u, p)))
  {
    hide Recorded, Count, Stops;
    var p := Plan(s.workers, s.schedulers, 0, 0);
    var plans := s.plans + [p];
    forall d: Call
      ensures Count(u, plans, d) == Count(u, s.plans, d) + if d in Made(u, p) then 1 else 0
    {
      CountSnoc(u, s.plans, p, d);
    }
    if Over(u, p) {
      EmptyPlanKeepsRecorded(u, s, p);
    } else {
      var c := Planned(u, p)[0];
      assert Made(u, p) == [c];
      PlannedCall(u, p, c);
      StopCallKeepsRecorded(u, s, plans, c);
    }
  }

  lemma LastCallKeepsRecorded(u: Setup, s: State, plan: nat, ok: bool)
    requires Recorded(u, s) && plan < |s.plans| && Next(u, s.plans[plan]) == []
    requires var p := s.plans[plan];
             && Made(u, Advanced(p, ok)) == Made(u, p) + Next(u, p)
             && forall d: Call :: Count(u, s.plans[plan := Advanced(p, ok)], d) == Count(u, s.plans, d)
    ensures Recorded(u, Advance(u, s, plan, ok))
  {
    hide Count, Made, Next, Only, Starts;
    assert s.calls + [] == s.calls && Made(u, s.plans[plan]) + [] == Made(u, s.plans[plan]);
  }

  lemma AdvanceKeepsRecorded(u: Setup, s: State, plan: nat, ok: bool)
    requires Bounded(u, s) && Growing(u, s) && Recorded(u, s) && plan < |s.plans| && !Over(u, s.plans[plan])
    ensures Recorded(u, Advance(u, s, plan, ok))
  {
    hide Recorded, Count, Stops;
    var p := s.plans[plan];
    var plans := s.plans[plan := Advanced(p, ok)];
    MadeGrows(u, p, ok);
    forall d: Call
      ensures Count(u, plans, d) == Count(u, s.plans, d) + if d in Next(u, p) then 1 else 0
    {
      CountUpdate(u, s.plans, plan, Advanced(p, ok), d);
    }
    if Next(u, p) == [] {
      LastCallKeepsRecorded(u, s, plan, ok);
    } else {
      var c := Planned(u, p)[p.done + 1];
      PlannedCall(u, p, c);
      StopCallKeepsRecorded(u, s, plans, c);
    }
  }

  // ---- one step keeps it ----

  ghost predicate Sound(u: Setup, s: State) {
    Bounded(u, s) && Growing(u, s) && Nested(u, s) && Recorded(u, s)
  }

  lemma PopFrame(u: Setup, s: State)
    requires Nested(u, s) && s.stack != []
    ensures var top := s.stack[|s.stack| - 1];
            && top in s.stack && Distinct(Pop(s).stack)
            && (forall f :: f in Pop(s).stack <==> f in s.stack && f != top)
  {
    hide Over;
    var k := |s.stack| - 1;
    assert s.stack == s.stack[..k] + [s.stack[k]];
  }

  lemma EnterKeepsNested(u: Setup, s: State)
    requires Bounded(u, s) && Growing(u, s) && Nested(u, s) && s.stack != [] && s.stack[|s.stack| - 1].Starting?
    ensures Growing(u, EnterNext(u, s)) && Nested(u, EnterNext(u, s))
  {
    hide Over, Stops;
    PopFrame(u, s);
  }

  lemma StartKeepsNested(u: Setup, s: State)
    requires Bounded(u, s) && Growing(u, s) && Nested(u, s)
    ensures Growing(u, Start(u, s)) && Nested(u, Start(u, s))
  {
    if !s.started {
      var t := s.(started := true, stack := s.stack + [Starting]);
      assert Nested(u, t) by {
        hide Over;
        assert t.stack[|s.stack|] == Starting;
      }
      EnterKeepsNested(u, t);
    }
  }

  lemma SameFrames(u: Setup, s: State, t: State)
    requires Nested(u, s) && t.plans == s.plans && t.stack == s.stack && t.started == s.started
    requires t.stopped == s.stopped || t.stopped.Some?
    ensures Nested(u, t)
  {
    hide Over;
  }

  lemma EarlierHaveCalls(u: Setup, s: State)
    requires Nested(u, s) && s.stopped.None?
    ensures forall i | 0 <= i < |s.plans| :: Planned(u, s.plans[i]) != []
  {
    forall i | 0 <= i < |s.plans|
      ensures Planned(u, s.plans[i]) != []
    {
      assert Stopping(i) in s.stack;
    }
  }

  lemma PlanKeepsGrowing(u: Setup, s: State, p: Plan)
    requires Growing(u, s) && p == Plan(s.workers, s.schedulers, 0, 0)
    requires forall i | 0 <= i < |s.plans| :: Planned(u, s.plans[i]) != []
    ensures Growing(u, s.(plans := s.plans + [p]))
  {
    hide Stops;
    var plans := s.plans + [p];
    assert forall i | 0 <= i < |s.plans| :: plans[i] == s.plans[i];
  }

  ghost function NewPlan(u: Setup, s: State, p: Plan): State {
    var planned := s.(plans := s.plans + [p]);
    if Over(u, p) then planned.(stopped := Some(Promised(|s.plans|)))
    else planned.(stack := s.stack + [Stopping(|s.plans|)])
  }

  lemma PlanKeepsNested(u: Setup, s: State, p: Plan)
    requires Nested(u, s)
    ensures Nested(u, NewPlan(u, s, p))
  {
    hide Over;
    var t := NewPlan(u, s, p);
    assert forall i | 0 <= i < |s.plans| :: t.plans[i] == s.plans[i];
    if !Over(u, p) {
      assert t.stack[|s.stack|] == Stopping(|s.plans|);
    }
  }

  lemma SamePlans(u: Setup, s: State, t: State)
    requires Growing(u, s) && t.plans == s.plans && t.workers == s.workers && t.schedulers == s.schedulers
    ensures Growing(u, t)
  {
  }

  lemma StopKeepsNested(u: Setup, s: State, graceMs: int)
    requires Bounded(u, s) && Growing(u, s) && Nested(u, s)
    ensures Growing(u, Stop(u, s, graceMs)) && Nested(u, Stop(u, s, graceMs))
  {
    hide Growing, Nested, Over;
    if s.stopped.Some? || !ValidGrace(graceMs) {
      SamePlans(u, s, Stop(u, s, graceMs));
      SameFrames(u, s, Stop(u, s, graceMs));
    } else {
      var p := Plan(s.workers, s.schedulers, 0, 0);
      EarlierHaveCalls(u, s);
      PlanKeepsGrowing(u, s, p);
      PlanKeepsNested(u, s, p);
      SamePlans(u, s.(plans := s.plans + [p]), Stop(u, s, graceMs));
      SameFrames(u, NewPlan(u, s, p), Stop(u, s, graceMs));
    }
  }

  lemma AdvanceKeepsGrowing(u: Setup, s: State, plan: nat, ok: bool)
    requires Growing(u, s) && plan < |s.plans| && !Over(u, s.plans[plan])
    ensures Growing(u, Advance(u, s, plan, ok))
    ensures forall i | 0 <= i < |s.plans| && i != plan :: Advance(u, s, plan, ok).plans[i] == s.plans[i]
  {
    hide Stops;
  }

  lemma LeaveKeepsNested(u: Setup, s: State, ok: bool)
    requires Bounded(u, s) && Growing(u, s) && Nested(u, s) && Enabled(u, s, Return(ok))
    ensures Growing(u, Leave(u, s, ok)) && Nested(u, Leave(u, s, ok))
  {
    hide Stops, Over, Growing;
    PopFrame(u, s);
    match s.stack[|s.stack| - 1] {
      case Starting =>
        if ok {
          EnterKeepsNested(u, s);
        } else {
          SamePlans(u, s, Leave(u, s, ok));
        }
      case Stopping(plan) =>
        AdvanceKeepsGrowing(u, s, plan, false);
        SamePlans(u, if ok then s else Advance(u, s, plan, false), Leave(u, s, ok));
    }
  }

  lemma StartKeepsRecorded(u: Setup, s: State)
    requires Bounded(u, s) && Recorded(u, s)
    ensures Recorded(u, Start(u, s))
  {
    hide Recorded;
    if !s.started {
      var t := s.(started := true, stack := s.stack + [Starting]);
      SameRecord(u, s, t);
      EnterKeepsRecorded(u, t);
    }
  }

  lemma StopKeepsRecorded(u: Setup, s: State, graceMs: int)
    requires Recorded(u, s)
    ensures Recorded(u, Stop(u, s, graceMs))
  {
    hide Recorded, Stops;
    if s.stopped.None? && ValidGrace(graceMs) {
      var p := Plan(s.workers, s.schedulers, 0, 0);
      var t := s.(plans := s.plans + [p], calls := s.calls + Made(u, p));
      PlanKeepsRecorded(u, s);
      assert Over(u, p) ==> s.calls + Made(u, p) == s.calls;
      SameRecord(u, t, Stop(u, s, graceMs));
    } else {
      SameRecord(u, s, Stop(u, s, graceMs));
    }
  }

  lemma LeaveKeepsRecorded(u: Setup, s: State, ok: bool)
    requires Sound(u, s) && Enabled(u, s, Return(ok))
    ensures Recorded(u, Leave(u, s, ok))
  {
    var top := s.stack[|s.stack| - 1];
    assert top in s.stack;
    hide Recorded, Bounded, Growing;
    if top.Starting? {
      if ok {
        EnterKeepsRecorded(u, s);
      } else {
        SameRecord(u, s, Pop(s));
      }
    } else if ok {
      SameRecord(u, s, Leave(u, s, ok));
    } else {
      AdvanceKeepsRecorded(u, s, top.plan, false);
      SameRecord(u, Advance(u, s, top.plan, false), Leave(u, s, ok));
    }
  }

  lemma SettleKeepsNested(u: Setup, s: State, plan: nat, ok: bool)
    requires Growing(u, s) && Nested(u, s) && Enabled(u, s, Settle(plan, ok))
    ensures Growing(u, Advance(u, s, plan, ok)) && Nested(u, Advance(u, s, plan, ok))
  {
    AdvanceKeepsGrowing(u, s, plan, ok);
    hide Growing, Over;
  }

  lemma StepKeepsSound(u: Setup, s: State, e: Event)
    requires Sound(u, s) && Enabled(u, s, e)
    ensures Sound(u, Do(u, s, e))
  {
    StepKeepsBounded(u, s, e);
    hide Bounded, Growing, Nested, Recorded, EnterNext, Over;
    match e {
      case CallStart =>
        StartKeepsNested(u, s);
        StartKeepsRecorded(u, s);
      case CallStop(graceMs) =>
        StopKeepsNested(u, s, graceMs);
        StopKeepsRecorded(u, s, graceMs);
      case Return(ok) =>
        LeaveKeepsNested(u, s, ok);
        LeaveKeepsRecorded(u, s, ok);
      case Settle(plan, ok) =>
        SettleKeepsNested(u, s, plan, ok);
        AdvanceKeepsRecorded(u, s, plan, ok);
    }
  }

  lemma NothingYet(u: Setup)
    requires Distinct(u.stores)
    ensures Sound(u, INITIAL)
  {
  }

  lemma {:induction false} EveryRunIsSound(u: Setup, events: seq<Event>)
    requires Distinct(u.stores)
    ensures Sound(u, After(u, events))
  {
    if events == [] {
      NothingYet(u);
    } else {
      EveryRunIsSound(u, events[..|events| - 1]);
      hide Sound;
      var before := After(u, events[..|events| - 1]);
      if Enabled(u, before, events[|events| - 1]) {
        StepKeepsSound(u, before, events[|events| - 1]);
      }
    }
  }

  // ---- every stop once, schedulers first ----

  /** No stop is called twice, and they come schedulers first, then workers, then stores. */
  ghost predicate Tidy(calls: seq<Call>) {
    var stops := Only(calls, false);
    && Distinct(stops)
    && (forall i, j | 0 <= i < j < |stops| :: Rank(stops[i]) <= Rank(stops[j]))
  }

  lemma MorePlans(u: Setup, s: State, e: Event)
    requires Sound(u, s) && Enabled(u, s, e)
    ensures |Do(u, s, e).plans| <= 1 <==> |s.plans| <= 1 && !Reenters(s, e)
  {
    hide Bounded, Growing, Recorded, Over, Stops;
    if s.stopped.None? && s.plans != [] {
      assert Stopping(0) in s.stack;
    }
  }

  lemma {:induction false} CalmMeansOnePlan(u: Setup, events: seq<Event>)
    requires Distinct(u.stores)
    ensures Calm(u, events) <==> |After(u, events).plans| <= 1
  {
    if events != [] {
      var before, e := After(u, events[..|events| - 1]), events[|events| - 1];
      CalmMeansOnePlan(u, events[..|events| - 1]);
      EveryRunIsSound(u, events[..|events| - 1]);
      if Enabled(u, before, e) {
        MorePlans(u, before, e);
      }
    }
  }

  lemma MadeIsTidy(u: Setup, p: Plan)
    requires Distinct(u.stores)
    ensures Distinct(Made(u, p))
    ensures forall i, j | 0 <= i < j < |Made(u, p)| :: Rank(Made(u, p)[i]) <= Rank(Made(u, p)[j])
  {
    StopsAreOrdered(p.schedulers, p.workers, u.stores);
    hide Stops;
  }

  /**
   * In every run in which no valid stop is called from inside the first call of another, whatever
   * else calls what from where: the stops called are those of one plan, in its order.
   */
  lemma CalmRunsAreTidy(u: Setup, events: seq<Event>)
    requires Distinct(u.stores) && Calm(u, events)
    ensures Tidy(After(u, events).calls)
    ensures var s := After(u, events);
            Only(s.calls, false) == if s.plans == [] then [] else Made(u, s.plans[0])
  {
    CalmMeansOnePlan(u, events);
    EveryRunIsSound(u, events);
    var s := After(u, events);
    hide Only, Made;
    if s.plans != [] {
      MadeIsTidy(u, s.plans[0]);
    }
  }

  lemma LaterPlansHaveMore(u: Setup, s: State, c: Call, q: nat)
    requires Growing(u, s) && q < |s.plans| && c in Planned(u, s.plans[0])
    ensures c in Planned(u, s.plans[q])
  {
    InStops(s.plans[0].schedulers, s.plans[0].workers, u.stores, c);
    InStops(s.plans[q].schedulers, s.plans[q].workers, u.stores, c);
    hide Stops;
  }

  lemma {:induction false} CountAll(u: Setup, plans: seq<Plan>, c: Call)
    requires forall q | 0 <= q < |plans| :: c in Made(u, plans[q])
    ensures Count(u, plans, c) == |plans|
  {
    hide Made;
    if plans != [] {
      CountAll(u, plans[..|plans| - 1], c);
    }
  }

  lemma TwiceIsNotDistinct(calls: seq<Call>, c: Call)
    requires multiset(calls)[c] > 1
    ensures !Distinct(calls)
  {
    var i :| 0 <= i < |calls| && calls[i] == c;
    assert calls == calls[..i] + [c] + calls[i + 1..];
    assert multiset(calls) == multiset(calls[..i]) + multiset{c} + multiset(calls[i + 1..]);
    if c in calls[..i] {
      var j :| 0 <= j < i && calls[..i][j] == c;
      assert calls[j] == calls[i];
    } else {
      assert c in calls[i + 1..];
      var j :| 0 <= j < |calls| - i - 1 && calls[i + 1..][j] == c;
      assert calls[i] == calls[i + 1 + j];
    }
  }

  /** Two plans call what the first one planned twice, once they are over. */
  lemma TwoPlansRepeat(u: Setup, s: State)
    requires Sound(u, s) && Quiet(u, s) && |s.plans| >= 2
    ensures !Tidy(s.calls)
  {
    var c := Planned(u, s.plans[0])[0];
    PlannedCall(u, s.plans[0], c);
    forall q | 0 <= q < |s.plans|
      ensures c in Made(u, s.plans[q])
    {
      LaterPlansHaveMore(u, s, c, q);
      assert s.plans[q] in s.plans;
    }
    hide Made, Planned, Only, Growing, Nested, Bounded;
    CountAll(u, s.plans, c);
    OnlyMembers(s.calls, false, c);
    TwiceIsNotDistinct(Only(s.calls, false), c);
  }

  /** When a run has come to its end, its stops are tidy if and only if it was calm. */
  lemma TidyExactlyWhenCalm(u: Setup, events: seq<Event>)
    requires Distinct(u.stores) && Quiet(u, After(u, events))
    ensures Tidy(After(u, events).calls) <==> Calm(u, events)
  {
    hide Tidy, Sound, Quiet;
    if Calm(u, events) {
      CalmRunsAreTidy(u, events);
    } else {
      CalmMeansOnePlan(u, events);
      EveryRunIsSound(u, events);
      TwoPlansRepeat(u, After(u, events));
    }
  }

  // ---- what was started is stopped ----

  lemma {:induction false} CountedSomewhere(u: Setup, plans: seq<Plan>, c: Call)
    ensures Count(u, plans, c) > 0 <==> exists q :: 0 <= q < |plans| && c in Made(u, plans[q])
  {
    hide Made;
    if plans != [] {
      var k := |plans| - 1;
      CountedSomewhere(u, plans[..k], c);
      if q :| 0 <= q < |plans| && c in Made(u, plans[q]) {
        assert q < k ==> plans[..k][q] == plans[q];
      }
      if q :| 0 <= q < k && c in Made(u, plans[..k][q]) {
        assert c in Made(u, plans[q]);
      }
    }
  }

  /** What the last plan knew of: workers and schedulers entered when it was made. */
  function LastPlan(s: State): Plan {
    if s.plans == [] then Plan(0, 0, 0, 0) else s.plans[|s.plans| - 1]
  }

  predicate Knows(p: Plan, c: Call) {
    (c.StopWorker? && c.i < p.workers) || (c.StopScheduler? && c.i < p.schedulers)
  }

  lemma MadeWhenOver(u: Setup, p: Plan, c: Call)
    requires Over(u, p) && (c.StopWorker? || c.StopScheduler?)
    ensures c in Made(u, p) <==> Knows(p, c)
  {
    InStops(p.schedulers, p.workers, u.stores, c);
    hide Stops;
  }

  lemma LastKnowsMost(u: Setup, s: State, c: Call, q: nat)
    requires Growing(u, s) && q < |s.plans| && Knows(s.plans[q], c)
    ensures Knows(LastPlan(s), c)
  {
    hide Stops;
  }

  lemma NoPlanKnowsNothing(c: Call)
    ensures !Knows(Plan(0, 0, 0, 0), c)
  {
  }

  lemma StoppedIffPlanned(u: Setup, s: State, c: Call)
    requires Sound(u, s) && Quiet(u, s) && (c.StopWorker? || c.StopScheduler?)
    ensures c in s.calls <==> Knows(LastPlan(s), c)
  {
    CountedSomewhere(u, s.plans, c);
    assert multiset(s.calls)[c] == Count(u, s.plans, c);
    hide Made, Count, Planned, Over, Growing, Nested, Bounded, Recorded, Knows;
    forall q | 0 <= q < |s.plans|
      ensures c in Made(u, s.plans[q]) <==> Knows(s.plans[q], c)
    {
      assert s.plans[q] in s.plans;
      MadeWhenOver(u, s.plans[q], c);
    }
    if c in s.calls {
      var q :| 0 <= q < |s.plans| && c in Made(u, s.plans[q]);
      LastKnowsMost(u, s, c, q);
    }
    if s.plans == [] {
      NoPlanKnowsNothing(c);
    }
  }

  lemma LastPlanWithin(u: Setup, s: State)
    requires Growing(u, s)
    ensures LastPlan(s).workers <= s.workers && LastPlan(s).schedulers <= s.schedulers
  {
  }

  /**
   * When a run has come to its end, every participant that was started has been stopped if and only if
   * none was entered after the last plan was made; a refused stop plans nothing.
   */
  lemma StartedAreStopped(u: Setup, events: seq<Event>)
    requires Distinct(u.stores) && Quiet(u, After(u, events))
    ensures var s := After(u, events);
            && (forall i :: StartWorker(i) in s.calls ==> StopWorker(i) in s.calls)
            && (forall i :: StartScheduler(i) in s.calls ==> StopScheduler(i) in s.calls)
            <==> s.workers == LastPlan(s).workers && s.schedulers == LastPlan(s).schedulers
  {
    EveryRunIsSound(u, events);
    var s := After(u, events);
    LastPlanWithin(u, s);
    hide Quiet, LastPlan;
    forall i: nat
      ensures StartWorker(i) in s.calls <==> i < s.workers
      ensures StopWorker(i) in s.calls <==> i < LastPlan(s).workers
      ensures StartScheduler(i) in s.calls <==> i < s.schedulers
      ensures StopScheduler(i) in s.calls <==> i < LastPlan(s).schedulers
    {
      StartedIffEntered(s, StartWorker(i));
      StartedIffEntered(s, StartScheduler(i));
      StoppedIffPlanned(u, s, StopWorker(i));
      StoppedIffPlanned(u, s, StopScheduler(i));
    }
    hide Sound;
    if LastPlan(s).workers < s.workers {
      assert StartWorker(LastPlan(s).workers) in s.calls;
    }
    if LastPlan(s).schedulers < s.schedulers {
      assert StartScheduler(LastPlan(s).schedulers) in s.calls;
    }
  }

  /** Whatever calls what from where, no participant is stopped that was not started before. */
  lemma NothingIsStoppedUnstarted(u: Setup, events: seq<Event>, k: nat)
    requires Distinct(u.stores) && k < |After(u, events).calls|
    ensures Follows(After(u, events).calls, k)
  {
    EveryRunIsSound(u, events);
  }

  // ---- every stop ends ----

  function Left(u: Setup, plans: seq<Plan>): nat
  {
    if plans == [] then 0
    else
      var p := plans[|plans| - 1];
      Left(u, plans[..|plans| - 1]) + if Over(u, p) then 0 else |Planned(u, p)| - p.done
  }

  /** How often something in progress can at most still return, and something awaited settle. */
  function Remaining(u: Setup, s: State): nat
    requires s.workers <= u.workers && s.schedulers <= u.schedulers
  {
    2 * Left(u, s.plans) + 2 * (u.workers - s.workers + u.schedulers - s.schedulers) + |s.stack|
  }

  lemma {:induction false} LeftDrops(u: Setup, plans: seq<Plan>, i: nat, ok: bool)
    requires i < |plans| && !Over(u, plans[i])
    ensures Left(u, plans[i := Advanced(plans[i], ok)]) == Left(u, plans) - 1
  {
    var k := |plans| - 1;
    var after := plans[i := Advanced(plans[i], ok)];
    if i == k {
      assert after[..k] == plans[..k];
    } else {
      LeftDrops(u, plans[..k], i, ok);
      assert after[..k] == plans[..k][i := Advanced(plans[i], ok)];
    }
  }

  lemma StepIsNearer(u: Setup, s: State, e: Event)
    requires Sound(u, s) && Enabled(u, s, e) && (e.Return? || e.Settle?)
    ensures Do(u, s, e).workers <= u.workers && Do(u, s, e).schedulers <= u.schedulers
    ensures Remaining(u, Do(u, s, e)) < Remaining(u, s)
  {
    hide Recorded, Growing, Left, Stops;
    if e.Settle? {
      LeftDrops(u, s.plans, e.plan, e.ok);
    } else {
      var top := s.stack[|s.stack| - 1];
      assert top in s.stack;
      if top.Stopping? && !e.ok {
        LeftDrops(u, s.plans, top.plan, false);
      }
    }
  }

  /** Unless the run has come to its end, a call in progress can return or an awaited one settle. */
  lemma SomethingCanSettle(u: Setup, s: State, ok: bool) returns (e: Event)
    requires Sound(u, s) && !Quiet(u, s)
    ensures Enabled(u, s, e) && (e == Return(ok) || (e.Settle? && e.ok == ok))
  {
    hide Bounded, Growing, Recorded, Stops;
    if s.stack != [] {
      assert s.stack[|s.stack| - 1] in s.stack;
      e := Return(ok);
    } else {
      var i :| 0 <= i < |s.plans| && !Over(u, s.plans[i]);
      e := Settle(i, ok);
    }
  }

  ghost predicate AllSettle(u: Setup, s: State, events: seq<Event>)
  {
    events == [] || (
      var k := |events| - 1;
      && AllSettle(u, s, events[..k]) && (events[k].Return? || events[k].Settle?)
      && Enabled(u, From(u, s, events[..k]), events[k]))
  }

  /** So however they return and settle, they do it only so often: every run comes to its end. */
  lemma {:induction false} EveryRunEnds(u: Setup, s: State, events: seq<Event>)
    requires Sound(u, s) && AllSettle(u, s, events)
    ensures var t := From(u, s, events);
            Sound(u, t) && |events| + Remaining(u, t) <= Remaining(u, s)
  {
    if events != [] {
      var k := |events| - 1;
      EveryRunEnds(u, s, events[..k]);
      var before := From(u, s, events[..k]);
      StepIsNearer(u, before, events[k]);
      StepKeepsSound(u, before, events[k]);
    }
  }

  // ---- for which extensions every run is tidy ----

  predicate NothingToStop(u: Setup) {
    u.workers == 0 && u.schedulers == 0 && u.stores == []
  }

  lemma StepAfter(u: Setup, events: seq<Event>, e: Event)
    ensures var s := After(u, events);
            After(u, events + [e]) == if Enabled(u, s, e) then Do(u, s, e) else s
  {
    assert (events + [e])[..|events|] == events;
  }

  /** A stop inside the first call of another makes that very call again. */
  lemma StopTwice(u: Setup, s: State)
    requires s.stopped.None? && !Over(u, Plan(s.workers, s.schedulers, 0, 0))
    ensures var t := Stop(u, Stop(u, s, 0), 0);
            var c := Planned(u, Plan(s.workers, s.schedulers, 0, 0))[0];
            t.calls == s.calls + [c] + [c] && !Tidy(t.calls)
  {
    var p := Plan(s.workers, s.schedulers, 0, 0);
    var c := Planned(u, p)[0];
    PlannedCall(u, p, c);
    hide Stops, Only;
    assert Made(u, p) == [c];
    var calls := s.calls + [c] + [c];
    OnlyMembers(calls, false, c);
    assert multiset(calls)[c] > 1;
    TwiceIsNotDistinct(Only(calls, false), c);
  }

  lemma NothingIsOver(u: Setup, p: Plan)
    requires NothingToStop(u) && p.workers == 0 && p.schedulers == 0
    ensures Over(u, p)
  {
  }

  lemma {:induction false} NothingIsCalm(u: Setup, events: seq<Event>)
    requires NothingToStop(u)
    ensures Calm(u, events)
  {
    if events != [] {
      NothingIsCalm(u, events[..|events| - 1]);
      EveryRunIsSound(u, events[..|events| - 1]);
      var s := After(u, events[..|events| - 1]);
      hide Calm, Over, Recorded, Stops;
      forall f | f in s.stack
        ensures f.Starting?
      {
        if f.Stopping? {
          NothingIsOver(u, s.plans[f.plan]);
        }
      }
    }
  }

  lemma SomethingPlanned(u: Setup, workers: nat, schedulers: nat)
    requires workers > 0 || schedulers > 0 || u.stores != []
    ensures !Over(u, Plan(workers, schedulers, 0, 0))
  {
  }

  /** Start, whose first participant throws, and then a stop inside the first call of another. */
  const THROWN_AND_TWICE: seq<Event> := [CallStart] + [Return(false)] + [CallStop(0)] + [CallStop(0)]

  lemma SomethingIsUntidy(u: Setup)
    requires !NothingToStop(u)
    ensures !Tidy(After(u, THROWN_AND_TWICE).calls)
  {
    StepAfter(u, [], CallStart);
    StepAfter(u, [CallStart], Return(false));
    StepAfter(u, [CallStart] + [Return(false)], CallStop(0));
    StepAfter(u, [CallStart] + [Return(false)] + [CallStop(0)], CallStop(0));
    var s := After(u, [CallStart] + [Return(false)]);
    assert [] + [CallStart] == [CallStart];
    hide Tidy, Over, Stops;
    assert s.stopped.None? && (u.workers > 0 ==> s.workers > 0);
    assert u.schedulers > 0 ==> s.workers > 0 || s.schedulers > 0;
    SomethingPlanned(u, s.workers, s.schedulers);
    StopTwice(u, s);
  }

  /** For which extensions every run is tidy: just those that have nothing to start and nothing to stop. */
  lemma EveryRunIsTidyWhen(u: Setup)
    requires Distinct(u.stores)
    ensures (forall events :: Tidy(After(u, events).calls)) <==> NothingToStop(u)
  {
    hide Tidy, Calm;
    if NothingToStop(u) {
      forall events
        ensures Tidy(After(u, events).calls)
      {
        NothingIsCalm(u, events);
        CalmRunsAreTidy(u, events);
      }
    } else {
      SomethingIsUntidy(u);
    }
  }

  // ---- four runs in which something goes wrong ----

  ghost predicate Leads(u: Setup, s: State, e: Event, t: State) {
    Enabled(u, s, e) && Do(u, s, e) == t
  }

  lemma FirstStep(u: Setup, e: Event, t: State)
    requires Leads(u, INITIAL, e, t)
    ensures After(u, [e]) == t
  {
    StepAfter(u, [], e);
    assert [] + [e] == [e];
  }

  lemma OneStep(u: Setup, events: seq<Event>, s: State, e: Event, t: State)
    requires After(u, events) == s && Leads(u, s, e, t)
    ensures After(u, events + [e]) == t
  {
    StepAfter(u, events, e);
  }

  // The kinds of steps these runs consist of, with the states written out.

  lemma StartLeads(u: Setup, s: State, t: State)
    requires !s.started && s.workers < u.workers
    requires t == s.(started := true, workers := s.workers + 1, stack := s.stack + [Starting],
                     calls := s.calls + [StartWorker(s.workers)])
    ensures Leads(u, s, CallStart, t)
  {
  }

  lemma EnterLeads(u: Setup, s: State, c: Call, t: State)
    requires s.stack != [] && s.stack[|s.stack| - 1].Starting?
    requires if s.workers < u.workers
             then && c == StartWorker(s.workers)
                  && t.workers == s.workers + 1 && t.schedulers == s.schedulers
             else && s.schedulers < u.schedulers && c == StartScheduler(s.schedulers)
                  && t.workers == s.workers && t.schedulers == s.schedulers + 1
    requires t == s.(workers := t.workers, schedulers := t.schedulers, calls := s.calls + [c])
    ensures Leads(u, s, Return(true), t)
  {
  }

  lemma LastReturnLeads(u: Setup, s: State, t: State)
    requires s.stack == [Starting] && s.workers >= u.workers && s.schedulers >= u.schedulers
    requires t == s.(stack := [])
    ensures Leads(u, s, Return(true), t)
  {
  }

  lemma IdleStopLeads(u: Setup, s: State, graceMs: int, t: State)
    requires s.stopped.Some? || !ValidGrace(graceMs)
    requires t == if s.stopped.Some? then s else s.(stopped := Some(Refused))
    ensures Leads(u, s, CallStop(graceMs), t)
  {
  }

  lemma StopLeads(u: Setup, s: State, graceMs: int, c: Call, t: State)
    requires s.stopped.None? && ValidGrace(graceMs)
    requires var p := Plan(s.workers, s.schedulers, 0, 0);
             && Planned(u, p) != [] && Planned(u, p)[0] == c
             && t == s.(plans := s.plans + [p], stack := s.stack + [Stopping(|s.plans|)], calls := s.calls + [c])
    ensures Leads(u, s, CallStop(graceMs), t)
  {
    hide Planned;
    assert Made(u, Plan(s.workers, s.schedulers, 0, 0)) == [c];
  }

  lemma RememberLeads(u: Setup, s: State, plan: nat, t: State)
    requires s.stack != [] && s.stack[|s.stack| - 1] == Stopping(plan) && plan < |s.plans|
    requires t == s.(stack := s.stack[..|s.stack| - 1], stopped := Some(Promised(plan)))
    ensures Leads(u, s, Return(true), t)
  {
  }

  lemma SettleLeads(u: Setup, s: State, plan: nat, t: State)
    requires s.stack == [] && plan < |s.plans| && !Over(u, s.plans[plan])
    requires var p := s.plans[plan];
             t == s.(plans := s.plans[plan := p.(done := p.done + 1)], calls := s.calls + Next(u, p))
    ensures Leads(u, s, Settle(plan, true), t)
  {
    hide Next, Over;
  }

  /** A first stop with a bad grace period is remembered: no later one does anything. */
  const REFUSED: seq<Event> := [CallStart] + [Return(true)] + [CallStop(-1)] + [CallStop(1000)]

  lemma RefusedStopIsFinal()
    ensures var s := After(Setup(1, 0, []), REFUSED);
            s.stack == [] && s.plans == [] && s.stopped == Some(Refused) && s.calls == [StartWorker(0)]
  {
    hide From, Do, Enabled;
    var u := Setup(1, 0, []);
    var a := [CallStart];
    var s1 := State(true, 1, 0, [], None, [Starting], [StartWorker(0)]);
    var s2 := State(true, 1, 0, [], None, [], [StartWorker(0)]);
    var s3 := State(true, 1, 0, [], Some(Refused), [], [StartWorker(0)]);
    StartLeads(u, INITIAL, s1);
    LastReturnLeads(u, s1, s2);
    IdleStopLeads(u, s2, -1, s3);
    IdleStopLeads(u, s3, 1000, s3);
    hide Leads;
    FirstStep(u, CallStart, s1);
    OneStep(u, a, s1, Return(true), s2);
    OneStep(u, a + [Return(true)], s2, CallStop(-1), s3);
    OneStep(u, a + [Return(true)] + [CallStop(-1)], s3, CallStop(1000), s3);
  }

  /** A start between the awaits of a stop: what it starts is in no plan. */
  const STARTED_LATE: seq<Event> := [CallStop(1000)] + [Return(true)] + [CallStart] + [Return(true)] + [Settle(0, true)]

  lemma OneStore()
    ensures Stops(0, 0, [7]) == [CloseStore(7)]
  {
    assert Closes([7]) == [CloseStore(7)] + Closes([7][..0]);
  }

  lemma StartedDuringStop()
    ensures var s := After(Setup(1, 0, [7]), STARTED_LATE);
            && s.stack == [] && s.plans == [Plan(0, 0, 1, 0)] && s.stopped == Some(Promised(0))
            && s.calls == [CloseStore(7), StartWorker(0)]
  {
    OneStore();
    hide From, Leads, Stops;
    var u := Setup(1, 0, [7]);
    var plan := Plan(0, 0, 0, 0);
    var a := [CallStop(1000)];
    var s1 := State(false, 0, 0, [plan], None, [Stopping(0)], [CloseStore(7)]);
    StopLeads(u, INITIAL, 1000, CloseStore(7), s1);
    FirstStep(u, CallStop(1000), s1);
    var s2 := s1.(stopped := Some(Promised(0)), stack := []);
    RememberLeads(u, s1, 0, s2);
    OneStep(u, a, s1, Return(true), s2);
    var s3 := s2.(started := true, workers := 1, stack := [Starting], calls := [CloseStore(7), StartWorker(0)]);
    StartLeads(u, s2, s3);
    OneStep(u, a + [Return(true)], s2, CallStart, s3);
    var s4 := s3.(stack := []);
    LastReturnLeads(u, s3, s4);
    OneStep(u, a + [Return(true)] + [CallStart], s3, Return(true), s4);
    var s5 := s4.(plans := [plan.(done := 1)]);
    SettleLeads(u, s4, 0, s5);
    OneStep(u, a + [Return(true)] + [CallStart] + [Return(true)], s4, Settle(0, true), s5);
  }

  /** A worker's own start calls stop: the workers started after that are in no plan. */
  const STOPPED_EARLY: seq<Event> :=
    [CallStart] + [CallStop(1000)] + [Return(true)] + [Return(true)] + [Return(true)] + [Settle(0, true)]

  lemma OneWorker()
    ensures Stops(0, 1, []) == [StopWorker(0)]
  {
  }

  lemma StoppedDuringStart()
    ensures var s := After(Setup(2, 0, []), STOPPED_EARLY);
            && s.stack == [] && s.plans == [Plan(1, 0, 1, 0)] && s.stopped == Some(Promised(0))
            && s.calls == [StartWorker(0), StopWorker(0), StartWorker(1)]
  {
    OneWorker();
    hide From, Leads, Stops;
    var u := Setup(2, 0, []);
    var plan := Plan(1, 0, 0, 0);
    var a := [CallStart] + [CallStop(1000)];
    var s1 := State(true, 1, 0, [], None, [Starting], [StartWorker(0)]);
    StartLeads(u, INITIAL, s1);
    FirstStep(u, CallStart, s1);
    var s2 := s1.(plans := [plan], stack := [Starting, Stopping(0)], calls := [StartWorker(0), StopWorker(0)]);
    StopLeads(u, s1, 1000, StopWorker(0), s2);
    OneStep(u, [CallStart], s1, CallStop(1000), s2);
    var s3 := s2.(stopped := Some(Promised(0)), stack := [Starting]);
    RememberLeads(u, s2, 0, s3);
    OneStep(u, a, s2, Return(true), s3);
    var s4 := s3.(workers := 2, calls := [StartWorker(0), StopWorker(0), StartWorker(1)]);
    EnterLeads(u, s3, StartWorker(1), s4);
    OneStep(u, a + [Return(true)], s3, Return(true), s4);
    var s5 := s4.(stack := []);
    LastReturnLeads(u, s4, s5);
    OneStep(u, a + [Return(true)] + [Return(true)], s4, Return(true), s5);
    var s6 := s5.(plans := [plan.(done := 1)]);
    SettleLeads(u, s5, 0, s6);
    OneStep(u, a + [Return(true)] + [Return(true)] + [Return(true)], s5, Settle(0, true), s6);
  }

  const ALL_STARTED: seq<Event> := [CallStart] + [Return(true)] + [Return(true)] + [Return(true)]

  const TWO_STOPS: seq<Event> := ALL_STARTED + [CallStop(1000)] + [CallStop(1000)] + [Return(true)] + [Return(true)]

  /** A stop from inside the first call of another: both plans are carried out, one among the other. */
  const STOPPED_TWICE: seq<Event> := TWO_STOPS + [Settle(0, true)] + [Settle(0, true)] + [Settle(1, true)]

  lemma AllStarted()
    ensures After(Setup(1, 2, []), ALL_STARTED)
         == State(true, 1, 2, [], None, [], [StartWorker(0), StartScheduler(0), StartScheduler(1)])
  {
    hide From, Leads;
    var u := Setup(1, 2, []);
    var a := [CallStart];
    var s1 := State(true, 1, 0, [], None, [Starting], [StartWorker(0)]);
    StartLeads(u, INITIAL, s1);
    FirstStep(u, CallStart, s1);
    var s2 := s1.(schedulers := 1, calls := [StartWorker(0), StartScheduler(0)]);
    EnterLeads(u, s1, StartScheduler(0), s2);
    OneStep(u, a, s1, Return(true), s2);
    var s3 := s2.(schedulers := 2, calls := [StartWorker(0), StartScheduler(0), StartScheduler(1)]);
    EnterLeads(u, s2, StartScheduler(1), s3);
    OneStep(u, a + [Return(true)], s2, Return(true), s3);
    LastReturnLeads(u, s3, s3.(stack := []));
    OneStep(u, a + [Return(true)] + [Return(true)], s3, Return(true), s3.(stack := []));
  }

  lemma TwoSchedulers()
    ensures Stops(2, 1, []) == [StopScheduler(1), StopScheduler(0), StopWorker(0)]
  {
  }

  lemma BothInside(starts: seq<Call>)
    requires After(Setup(1, 2, []), ALL_STARTED) == State(true, 1, 2, [], None, [], starts)
    ensures After(Setup(1, 2, []), TWO_STOPS)
         == State(true, 1, 2, [Plan(1, 2, 0, 0), Plan(1, 2, 0, 0)], Some(Promised(0)), [],
                  starts + [StopScheduler(1)] + [StopScheduler(1)])
  {
    TwoSchedulers();
    hide From, Leads, Stops;
    var u := Setup(1, 2, []);
    var plan := Plan(1, 2, 0, 0);
    var a := ALL_STARTED;
    var s0 := State(true, 1, 2, [], None, [], starts);
    var s1 := s0.(plans := [plan], stack := [Stopping(0)], calls := starts + [StopScheduler(1)]);
    StopLeads(u, s0, 1000, StopScheduler(1), s1);
    OneStep(u, a, s0, CallStop(1000), s1);
    var s2 := s1.(plans := [plan, plan], stack := [Stopping(0), Stopping(1)], calls := s1.calls + [StopScheduler(1)]);
    StopLeads(u, s1, 1000, StopScheduler(1), s2);
    OneStep(u, a + [CallStop(1000)], s1, CallStop(1000), s2);
    var s3 := s2.(stopped := Some(Promised(1)), stack := [Stopping(0)]);
    RememberLeads(u, s2, 1, s3);
    OneStep(u, a + [CallStop(1000)] + [CallStop(1000)], s2, Return(true), s3);
    var s4 := s3.(stopped := Some(Promised(0)), stack := []);
    RememberLeads(u, s3, 0, s4);
    OneStep(u, a + [CallStop(1000)] + [CallStop(1000)] + [Return(true)], s3, Return(true), s4);
  }

  lemma BothCarriedOut(starts: seq<Call>)
    requires After(Setup(1, 2, []), TWO_STOPS)
          == State(true, 1, 2, [Plan(1, 2, 0, 0), Plan(1, 2, 0, 0)], Some(Promised(0)), [],
                   starts + [StopScheduler(1)] + [StopScheduler(1)])
    ensures After(Setup(1, 2, []), STOPPED_TWICE).calls
         == starts + [StopScheduler(1)] + [StopScheduler(1)] + [StopScheduler(0)] + [StopWorker(0)] + [StopScheduler(0)]
  {
    TwoSchedulers();
    hide From, Leads, Stops;
    var u := Setup(1, 2, []);
    var plan := Plan(1, 2, 0, 0);
    var s0 := After(u, TWO_STOPS);
    var s1 := s0.(plans := [plan.(done := 1), plan], calls := s0.calls + [StopScheduler(0)]);
    SettleLeads(u, s0, 0, s1);
    OneStep(u, TWO_STOPS, s0, Settle(0, true), s1);
    var s2 := s1.(plans := [plan.(done := 2), plan], calls := s1.calls + [StopWorker(0)]);
    SettleLeads(u, s1, 0, s2);
    OneStep(u, TWO_STOPS + [Settle(0, true)], s1, Settle(0, true), s2);
    var s3 := s2.(plans := [plan.(done := 2), plan.(done := 1)], calls := s2.calls + [StopScheduler(0)]);
    SettleLeads(u, s2, 1, s3);
    OneStep(u, TWO_STOPS + [Settle(0, true)] + [Settle(0, true)], s2, Settle(1, true), s3);
  }

  lemma NoStopsYet()
    ensures Only([StartWorker(0), StartScheduler(0), StartScheduler(1)], false) == []
  {
    var starts := [StartWorker(0), StartScheduler(0), StartScheduler(1)];
    assert starts == [] + [StartWorker(0)] + [StartScheduler(0)] + [StartScheduler(1)];
    OnlySnoc([], StartWorker(0), false);
    OnlySnoc([] + [StartWorker(0)], StartScheduler(0), false);
    OnlySnoc([] + [StartWorker(0)] + [StartScheduler(0)], StartScheduler(1), false);
  }

  lemma StopsAlone(starts: seq<Call>)
    requires starts == [StartWorker(0), StartScheduler(0), StartScheduler(1)]
    ensures Only(starts + [StopScheduler(1)] + [StopScheduler(1)]
                 + [StopScheduler(0)] + [StopWorker(0)] + [StopScheduler(0)], false)
         == [StopScheduler(1), StopScheduler(1), StopScheduler(0), StopWorker(0), StopScheduler(0)]
  {
    var a := starts + [StopScheduler(1)];
    var b := a + [StopScheduler(1)];
    OnlySnoc(starts, StopScheduler(1), false);
    OnlySnoc(a, StopScheduler(1), false);
    OnlySnoc(b, StopScheduler(0), false);
    OnlySnoc(b + [StopScheduler(0)], StopWorker(0), false);
    OnlySnoc(b + [StopScheduler(0)] + [StopWorker(0)], StopScheduler(0), false);
    NoStopsYet();
    hide Only;
  }

  lemma StoppedTwice()
    ensures Only(After(Setup(1, 2, []), STOPPED_TWICE).calls, false) ==
            [StopScheduler(1), StopScheduler(1), StopScheduler(0), StopWorker(0), StopScheduler(0)]
    ensures !Tidy(After(Setup(1, 2, []), STOPPED_TWICE).calls)
  {
    hide From, Leads, Stops, Only;
    AllStarted();
    var starts := [StartWorker(0), StartScheduler(0), StartScheduler(1)];
    BothInside(starts);
    BothCarriedOut(starts);
    StopsAlone(starts);
    assert Only(After(Setup(1, 2, []), STOPPED_TWICE).calls, false)[0] == StopScheduler(1);
    assert Only(After(Setup(1, 2, []), STOPPED_TWICE).calls, false)[1] == StopScheduler(1);
  }
}
