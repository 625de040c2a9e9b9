/**
 * Every interleaving of one application's life. `init` and `dispose` may be called at any time, from
 * outside or from inside a hook; a hook that is awaited may settle well or badly. The first hook of a
 * start runs before `init` has stored the promise that marks the start as made: that is the window.
 */
module LifecycleRuns {
  import opened Wrappers
  import opened Lifecycle

  datatype App = App(instances: seq<Instance>, extensions: nat)

  datatype Status = Created | Starting | Running | Stopping | Stopped | FailedCleaned

  /** What one call of start or dispose is waiting for, or how it ended. */
  datatype Point =
    | Uncalled
    | AtInit(i: nat)
    | AtBoot(i: nat)
    | AtReady
    | AtStart(j: nat)
    | AwaitInit(start: nat)
    | AtLoads
    | AtStop(k: nat)
    | AtShutdown(i: nat)
    | Succeeded
    | Failed

  /**
   * `promise` is the start that `initPromise` stands for, once it is assigned; `open` counts the starts
   * whose first hook has not returned. The last two fields record the calls made, and the extensions
   * entered, when cleaning up began.
   */
  datatype State = State(
    status: Status,
    entered: seq<nat>,
    promise: Option<nat>,
    starts: seq<Point>,
    disposal: Point,
    open: nat,
    calls: seq<Call>,
    begun: seq<Call>,
    count: nat)

  datatype Actor = Starter(start: nat) | Disposer

  datatype Event = CallInit | CallDispose | Return | Settle(actor: Actor, ok: bool)

  const INITIAL: State := State(Created, [], None, [], Uncalled, 0, [], [], 0)

  // ---- one step ----

  predicate Exists(s: State, a: Actor) {
    a.Starter? ==> a.start < |s.starts|
  }

  function At(s: State, a: Actor): Point
    requires Exists(s, a)
  {
    if a.Starter? then s.starts[a.start] else s.disposal
  }

  function Put(s: State, a: Actor, p: Point): State
    requires Exists(s, a)
  {
    if a.Starter? then s.(starts := s.starts[a.start := p]) else s.(disposal := p)
  }

  /** Moves on to a point and makes the calls that lead there. */
  function Go(s: State, a: Actor, p: Point, made: seq<Call>): State
    requires Exists(s, a)
  {
    Put(s, a, p).(calls := s.calls + made)
  }

  /** The second pass from an instance on. */
  function NextBoot(instances: seq<Instance>, i: nat): Point
    decreases |instances| - i
  {
    if i >= |instances| then AtReady else if instances[i].bootstrap then AtBoot(i) else NextBoot(instances, i + 1)
  }

  /** The first pass from an instance on, and then the second. */
  function NextInit(instances: seq<Instance>, i: nat): Point
    decreases |instances| - i
  {
    if i >= |instances| then NextBoot(instances, 0)
    else if instances[i].moduleInit then AtInit(i)
    else NextInit(instances, i + 1)
  }

  function HookAt(p: Point): seq<Call> {
    match p
    case AtInit(i) => [ModuleInit(i)]
    case AtBoot(i) => [Bootstrap(i)]
    case _ => []
  }

  function NextStart(app: App, s: State, a: Actor, j: nat): State
    requires Exists(s, a)
  {
    if j < app.extensions then Go(s.(entered := s.entered + [j]), a, AtStart(j), [Start(j)])
    else Put(s.(status := Running), a, Succeeded)
  }

  /** The last instance before a position that has a shutdown hook. */
  function LastShutdown(instances: seq<Instance>, i: nat): (r: Option<nat>)
    requires i <= |instances|
    ensures r.Some? ==> r.value < i && instances[r.value].shutdown
  {
    if i == 0 then None else if instances[i - 1].shutdown then Some(i - 1) else LastShutdown(instances, i - 1)
  }

  function ShutdownFrom(app: App, s: State, a: Actor, i: nat): State
    requires Exists(s, a)
  {
    match LastShutdown(app.instances, if i < |app.instances| then i else |app.instances|)
    case Some(x) => Go(s, a, AtShutdown(x), [Shutdown(x)])
    case None =>
      if a.Disposer? then Put(s.(status := Stopped), a, Succeeded)
      else Put(s.(status := FailedCleaned), a, Failed)
  }

  function StopFrom(app: App, s: State, a: Actor, k: nat): State
    requires Exists(s, a)
  {
    var m := if k < |s.entered| then k else |s.entered|;
    if m > 0 then Go(s, a, AtStop(m - 1), [Stop(s.entered[m - 1])])
    else ShutdownFrom(app, s.(entered := []), a, |app.instances|)
  }

  predicate Pending(p: Point) {
    !p.Uncalled? && !p.Succeeded? && !p.Failed?
  }

  /** What happens next when that which an actor awaits has settled. */
  function Resume(app: App, s: State, a: Actor, ok: bool): State
    requires Exists(s, a) && Pending(At(s, a))
  {
    match At(s, a)
    case AtInit(i) =>
      if !ok then Put(s, a, AtLoads)
      else Go(s, a, NextInit(app.instances, i + 1), HookAt(NextInit(app.instances, i + 1)))
    case AtBoot(i) =>
      if !ok then Put(s, a, AtLoads)
      else Go(s, a, NextBoot(app.instances, i + 1), HookAt(NextBoot(app.instances, i + 1)))
    case AtReady => NextStart(app, s, a, 0)
    case AtStart(j) => if !ok then Put(s, a, AtLoads) else NextStart(app, s, a, j + 1)
    case AwaitInit(start) =>
      var failed := start < |s.starts| && s.starts[start].Failed?;
      if failed || s.status.FailedCleaned? || s.status.Stopped? then Put(s, a, Succeeded)
      else Put(s.(status := Stopping), a, AtLoads)
    case AtLoads => StopFrom(app, s.(begun := s.calls, count := |s.entered|), a, |s.entered|)
    case AtStop(k) => StopFrom(app, s, a, k)
    case AtShutdown(i) => ShutdownFrom(app, s, a, i)
  }

  /** `initPromise ??= start()`: the promise is stored only once start has come to its first await. */
  function Init(app: App, s: State): State {
    if !s.disposal.Uncalled? || s.promise.Some? then s
    else
      var p := NextInit(app.instances, 0);
      var started := s.(status := Starting, starts := s.starts + [p], calls := s.calls + HookAt(p));
      if p.AtReady? then started.(promise := Some(|s.starts|)) else started.(open := s.open + 1)
  }

  function Dispose(s: State): State {
    if !s.disposal.Uncalled? then s
    else if s.promise.Some? then s.(disposal := AwaitInit(s.promise.value))
    else if s.status.FailedCleaned? || s.status.Stopped? then s.(disposal := Succeeded)
    else s.(status := Stopping, disposal := AtLoads)
  }

  /** While a first hook runs nothing else can; a start is waited for until it has ended. */
  predicate Enabled(s: State, e: Event) {
    match e
    case CallInit => true
    case CallDispose => true
    case Return => s.open > 0
    case Settle(a, _) =>
      && s.open == 0 && Exists(s, a) && Pending(At(s, a))
      && (At(s, a).AwaitInit? ==> At(s, a).start < |s.starts| && !Pending(s.starts[At(s, a).start]))
  }

  function Do(app: App, s: State, e: Event): State
    requires Enabled(s, e)
  {
    match e
    case CallInit => Init(app, s)
    case CallDispose => Dispose(s)
    case Return => s.(promise := Some(s.open - 1), open := s.open - 1)
    case Settle(a, ok) => Resume(app, s, a, ok)
  }

  /** Any events from a state on; one that cannot happen is skipped. */
  function From(app: App, s: State, events: seq<Event>): State
  {
    if events == [] then s
    else
      var before := From(app, s, events[..|events| - 1]);
      if Enabled(before, events[|events| - 1]) then Do(app, before, events[|events| - 1]) else before
  }

  /** Nothing is awaited: without another call nothing more happens. */
  predicate Quiet(s: State) {
    s.open == 0 && !Pending(s.disposal) && forall i | 0 <= i < |s.starts| :: !Pending(s.starts[i])
  }

  /** No call of init or dispose is made from inside the window. */
  ghost predicate Calm(app: App, events: seq<Event>)
  {
    events == [] || (
      var before, e := From(app, INITIAL, events[..|events| - 1]), events[|events| - 1];
      Calm(app, events[..|events| - 1]) && (before.open > 0 ==> !e.CallInit? && !e.CallDispose?))
  }

  /** All calls of some life from beginning to end. */
  ghost predicate IsLife(app: App, calls: seq<Call>) {
    exists begun, count: nat :: count <= app.extensions && Whole(app.instances, calls, begun, count)
  }

  // ---- what holds at each point of a calm run ----

  /** Where a clean-up is, and the calls up to there. */
  ghost predicate Cleaning(app: App, s: State, p: Point) {
    match p
    case AtLoads => |s.entered| <= app.extensions && Begun(app.instances, s.calls, |s.entered|)
    case AtStop(k) =>
      && k < |s.entered| && |s.entered| == s.count <= app.extensions && Begun(app.instances, s.begun, s.count)
      && s.calls == s.begun + StopsDownTo(s.count, k)
    case AtShutdown(i) =>
      && s.entered == [] && i < |app.instances| && s.count <= app.extensions && Begun(app.instances, s.begun, s.count)
      && s.calls == s.begun + StopsDownTo(s.count, 0) + ShutdownsDownTo(app.instances, i)
    case Succeeded => s.entered == [] && s.count <= app.extensions && Whole(app.instances, s.calls, s.begun, s.count)
    case Failed => s.entered == [] && s.count <= app.extensions && Whole(app.instances, s.calls, s.begun, s.count)
    case _ => false
  }

  /** Where a start is that goes well so far. */
  ghost predicate StartingUp(app: App, s: State, p: Point) {
    match p
    case AtInit(i) => s.entered == [] && i < |app.instances| && s.calls == InitCalls(app.instances, i + 1)
    case AtBoot(i) =>
      && s.entered == [] && i < |app.instances|
      && s.calls == InitCalls(app.instances, |app.instances|) + BootCalls(app.instances, i + 1)
    case AtReady => s.entered == [] && s.calls == RunInit(app.instances)
    case AtStart(j) =>
      j < app.extensions && |s.entered| == j + 1 && s.calls == RunInit(app.instances) + StartCalls(j + 1)
    case _ => false
  }

  predicate Unasked(p: Point) {
    p.Uncalled? || p == AwaitInit(0)
  }

  ghost predicate Disposing(app: App, s: State) {
    Cleaning(app, s, s.disposal) && s.status == if s.disposal.Succeeded? then Stopped else Stopping
  }

  ghost predicate Started(app: App, s: State, p: Point) {
    match p
    case Failed => s.status.FailedCleaned? && Cleaning(app, s, p) && (Unasked(s.disposal) || s.disposal.Succeeded?)
    case Succeeded =>
      if Unasked(s.disposal) then
        && s.status.Running? && |s.entered| == app.extensions
        && s.calls == RunInit(app.instances) + StartCalls(app.extensions)
      else Disposing(app, s) && !s.disposal.Failed?
    case _ =>
      s.status.Starting? && Unasked(s.disposal) && (StartingUp(app, s, p) || (Pending(p) && Cleaning(app, s, p)))
  }

  ghost predicate Sound(app: App, s: State) {
    && |s.starts| <= 1 && s.open <= |s.starts|
    && s.promise == (if |s.starts| == 1 && s.open == 0 then Some(0) else None)
    && (forall j | 0 <= j < |s.entered| :: s.entered[j] == j)
    && (s.open == 1 ==> s.disposal.Uncalled? && s.starts[0] == NextInit(app.instances, 0) && !s.starts[0].AtReady?)
    && if s.starts != [] then Started(app, s, s.starts[0])
       else if s.disposal.Uncalled? then s.status.Created? && s.calls == [] && s.entered == []
       else Disposing(app, s) && !s.disposal.Failed?
  }

  // ---- one step keeps it ----

  lemma {:induction false} NextBootIs(app: App, i: nat)
    requires i <= |app.instances|
    ensures var p := NextBoot(app.instances, i);
            && (p.AtBoot? || p.AtReady?) && (p.AtBoot? ==> i <= p.i < |app.instances|)
            && BootCalls(app.instances, i) + HookAt(p)
               == BootCalls(app.instances, if p.AtBoot? then p.i + 1 else |app.instances|)
    decreases |app.instances| - i
  {
    if i < |app.instances| && !app.instances[i].bootstrap {
      NextBootIs(app, i + 1);
    }
  }

  lemma {:induction false} NextInitIs(app: App, i: nat)
    requires i <= |app.instances|
    ensures var p := NextInit(app.instances, i);
            && (p.AtInit? || p.AtBoot? || p.AtReady?)
            && (p.AtInit? ==> i <= p.i < |app.instances|
                              && InitCalls(app.instances, i) + HookAt(p) == InitCalls(app.instances, p.i + 1))
            && (!p.AtInit? ==> p == NextBoot(app.instances, 0)
                               && InitCalls(app.instances, i) == InitCalls(app.instances, |app.instances|))
    decreases |app.instances| - i
  {
    if i == |app.instances| {
      NextBootIs(app, 0);
    } else if !app.instances[i].moduleInit {
      NextInitIs(app, i + 1);
      assert InitCalls(app.instances, i + 1) == InitCalls(app.instances, i);
    }
  }

  lemma FirstBoot(app: App)
    ensures var p := NextBoot(app.instances, 0);
            && (p.AtBoot? || p.AtReady?) && (p.AtBoot? ==> p.i < |app.instances|)
            && HookAt(p) == BootCalls(app.instances, if p.AtBoot? then p.i + 1 else |app.instances|)
  {
    NextBootIs(app, 0);
    assert BootCalls(app.instances, 0) + HookAt(NextBoot(app.instances, 0)) == HookAt(NextBoot(app.instances, 0));
  }

  /** Going on to the next hook of either pass, having made the calls of the earlier ones. */
  lemma HookReached(app: App, s: State, i: nat)
    requires i <= |app.instances| && s.entered == [] && s.calls == InitCalls(app.instances, i)
    ensures var p := NextInit(app.instances, i); StartingUp(app, s.(calls := s.calls + HookAt(p)), p)
  {
    NextInitIs(app, i);
    FirstBoot(app);
    hide InitCalls, BootCalls, NextInit, NextBoot;
  }

  lemma BootReached(app: App, s: State, i: nat)
    requires i <= |app.instances| && s.entered == []
    requires s.calls == InitCalls(app.instances, |app.instances|) + BootCalls(app.instances, i)
    ensures var p := NextBoot(app.instances, i); StartingUp(app, s.(calls := s.calls + HookAt(p)), p)
  {
    NextBootIs(app, i);
  }

  lemma {:induction false} LastShutdownIs(instances: seq<Instance>, i: nat)
    requires i <= |instances|
    ensures match LastShutdown(instances, i)
            case Some(x) => ShutdownsDownTo(instances, i) + [Shutdown(x)] == ShutdownsDownTo(instances, x)
            case None => ShutdownsDownTo(instances, i) == ShutdownsDownTo(instances, 0)
  {
    if i > 0 && !instances[i - 1].shutdown {
      LastShutdownIs(instances, i - 1);
    }
  }

  /** A step of one actor touches no other actor, and neither the promise nor the window. */
  ghost predicate OnlyMoves(s: State, t: State, a: Actor) {
    && |t.starts| == |s.starts| && t.promise == s.promise && t.open == s.open && Exists(t, a)
    && (a.Starter? ==> t.disposal == s.disposal)
    && (forall i | 0 <= i < |s.starts| && a != Starter(i) :: t.starts[i] == s.starts[i])
  }

  /** The shutdown pass goes on to the next hook, or the clean-up is complete. */
  lemma ShutdownGoesOn(app: App, s: State, a: Actor, i: nat)
    requires Exists(s, a) && s.entered == [] && i <= |app.instances| && s.count <= app.extensions
    requires Begun(app.instances, s.begun, s.count)
    requires s.calls == s.begun + StopsDownTo(s.count, 0) + ShutdownsDownTo(app.instances, i)
    ensures var t := ShutdownFrom(app, s, a, i);
            && Cleaning(app, t, At(t, a)) && OnlyMoves(s, t, a)
            && (At(t, a).AtShutdown? || At(t, a) == if a.Disposer? then Succeeded else Failed)
            && t.status == if Pending(At(t, a)) then s.status else if a.Disposer? then Stopped else FailedCleaned
  {
    LastShutdownIs(app.instances, i);
    var t := ShutdownFrom(app, s, a, i);
    if LastShutdown(app.instances, i).Some? {
      var x := LastShutdown(app.instances, i).value;
      assert t.calls == s.begun + StopsDownTo(s.count, 0) + (ShutdownsDownTo(app.instances, i) + [Shutdown(x)]);
    }
  }

  lemma StopGoesOn(app: App, s: State, a: Actor, k: nat)
    requires Exists(s, a) && k <= |s.entered| && |s.entered| == s.count <= app.extensions
    requires forall j | 0 <= j < |s.entered| :: s.entered[j] == j
    requires Begun(app.instances, s.begun, s.count) && s.calls == s.begun + StopsDownTo(s.count, k)
    ensures var t := StopFrom(app, s, a, k);
            && Cleaning(app, t, At(t, a)) && OnlyMoves(s, t, a) && (t.entered == s.entered || t.entered == [])
            && (At(t, a).AtStop? || At(t, a).AtShutdown? || At(t, a) == if a.Disposer? then Succeeded else Failed)
            && t.status == if Pending(At(t, a)) then s.status else if a.Disposer? then Stopped else FailedCleaned
  {
    if k == 0 {
      var n := |app.instances|;
      assert s.calls == s.begun + StopsDownTo(s.count, 0) + ShutdownsDownTo(app.instances, n);
      ShutdownGoesOn(app, s.(entered := []), a, n);
    } else {
      assert s.calls + [Stop(k - 1)] == s.begun + (StopsDownTo(s.count, k) + [Stop(k - 1)]);
    }
  }

  /** An actor that is cleaning up goes on doing so, down to the end. */
  lemma CleaningGoesOn(app: App, s: State, a: Actor, ok: bool)
    requires Exists(s, a) && Pending(At(s, a)) && Cleaning(app, s, At(s, a))
    requires forall j | 0 <= j < |s.entered| :: s.entered[j] == j
    ensures var t := Resume(app, s, a, ok);
            && Cleaning(app, t, At(t, a)) && OnlyMoves(s, t, a) && (t.entered == s.entered || t.entered == [])
            && (Pending(At(t, a)) || At(t, a) == if a.Disposer? then Succeeded else Failed)
            && t.status == if Pending(At(t, a)) then s.status else if a.Disposer? then Stopped else FailedCleaned
  {
    hide Begun, Whole;
    match At(s, a)
    case AtLoads =>
      var r := s.(begun := s.calls, count := |s.entered|);
      assert r.calls == r.begun + StopsDownTo(r.count, |s.entered|);
      StopGoesOn(app, r, a, |s.entered|);
    case AtStop(k) => StopGoesOn(app, s, a, k);
    case AtShutdown(i) => ShutdownGoesOn(app, s, a, i);
  }

  lemma FailureBegins(app: App, s: State, p: Point)
    requires StartingUp(app, s, p)
    ensures |s.entered| <= app.extensions && Begun(app.instances, s.calls, |s.entered|)
  {
    match p
    case AtInit(i) => InitIsPrefix(app.instances, i + 1);
    case AtBoot(i) => BootIsPrefix(app.instances, i + 1);
    case _ =>
  }

  lemma ExtensionReached(app: App, s: State, j: nat)
    requires |s.entered| == j <= app.extensions && s.calls == RunInit(app.instances) + StartCalls(j)
    ensures j < app.extensions ==>
              StartingUp(app, s.(entered := s.entered + [j], calls := s.calls + [Start(j)]), AtStart(j))
  {
    hide RunInit;
    assert s.calls + [Start(j)] == RunInit(app.instances) + (StartCalls(j) + [Start(j)]);
  }

  lemma NoneStarted(app: App)
    ensures RunInit(app.instances) + StartCalls(0) == RunInit(app.instances)
  {
    hide RunInit;
  }

  /** A start under way goes on to its next hook or extension, is complete, or turns to cleaning up. */
  lemma StartGoesOn(app: App, s: State, ok: bool)
    requires Sound(app, s) && |s.starts| == 1 && s.open == 0 && StartingUp(app, s, s.starts[0])
    ensures Sound(app, Resume(app, s, Starter(0), ok))
  {
    hide NextInit, NextBoot, RunInit, Begun, Whole, InitCalls, BootCalls, StartCalls;
    var p := s.starts[0];
    FailureBegins(app, s, p);
    NoneStarted(app);
    if ok || p.AtReady? {
      match p
      case AtInit(i) => HookReached(app, s, i + 1);
      case AtBoot(i) => BootReached(app, s, i + 1);
      case AtReady => ExtensionReached(app, s, 0);
      case AtStart(j) => ExtensionReached(app, s, j + 1);
    }
  }

  lemma SettleStart(app: App, s: State, ok: bool)
    requires Sound(app, s) && Enabled(s, Settle(Starter(0), ok))
    ensures Sound(app, Resume(app, s, Starter(0), ok))
  {
    if StartingUp(app, s, s.starts[0]) {
      StartGoesOn(app, s, ok);
    } else {
      CleaningGoesOn(app, s, Starter(0), ok);
    }
  }

  lemma FullStart(app: App, s: State)
    requires s.calls == RunInit(app.instances) + StartCalls(app.extensions) && |s.entered| == app.extensions
    ensures Begun(app.instances, s.calls, |s.entered|)
  {
  }

  lemma SettleDisposal(app: App, s: State, ok: bool)
    requires Sound(app, s) && Enabled(s, Settle(Disposer, ok))
    ensures Sound(app, Resume(app, s, Disposer, ok))
  {
    if s.disposal.AwaitInit? {
      if s.starts[0].Succeeded? {
        FullStart(app, s);
      }
    } else {
      CleaningGoesOn(app, s, Disposer, ok);
    }
  }

  lemma CallsKeepSound(app: App, s: State, e: Event)
    requires Sound(app, s) && (e.CallInit? || e.CallDispose?) && s.open == 0
    ensures Sound(app, Do(app, s, e))
  {
    if e.CallInit? && s.disposal.Uncalled? && s.promise.None? {
      HookReached(app, s, 0);
    }
  }

  lemma StepKeepsSound(app: App, s: State, e: Event)
    requires Sound(app, s) && Enabled(s, e) && (s.open > 0 ==> !e.CallInit? && !e.CallDispose?)
    ensures Sound(app, Do(app, s, e))
  {
    match e
    case CallInit => CallsKeepSound(app, s, e);
    case CallDispose => CallsKeepSound(app, s, e);
    case Return =>
    case Settle(a, ok) =>
      if a.Disposer? {
        SettleDisposal(app, s, ok);
      } else {
        SettleStart(app, s, ok);
      }
  }

  lemma {:induction false} CalmRunsAreSound(app: App, events: seq<Event>)
    requires Calm(app, events)
    ensures Sound(app, From(app, INITIAL, events))
  {
    if events != [] {
      CalmRunsAreSound(app, events[..|events| - 1]);
      var before := From(app, INITIAL, events[..|events| - 1]);
      if Enabled(before, events[|events| - 1]) {
        StepKeepsSound(app, before, events[|events| - 1]);
      }
    }
  }

  // ---- calm runs: every point is part of a life ----

  lemma {:induction false} StopsExtend(count: nat, k: nat)
    requires k <= count
    ensures StopsDownTo(count, k) <= StopsDownTo(count, 0)
  {
    if k > 0 {
      StopsExtend(count, k - 1);
    }
  }

  lemma {:induction false} ShutdownsExtend(instances: seq<Instance>, i: nat)
    requires i <= |instances|
    ensures ShutdownsDownTo(instances, i) <= ShutdownsDownTo(instances, 0)
  {
    if i > 0 {
      ShutdownsExtend(instances, i - 1);
    }
  }

  /** Part of some life: its calls from the beginning. */
  ghost predicate IsPartOfLife(app: App, calls: seq<Call>) {
    exists life :: calls <= life && IsLife(app, life)
  }

  lemma BegunIsPart(app: App, calls: seq<Call>, count: nat)
    requires count <= app.extensions && Begun(app.instances, calls, count)
    ensures IsPartOfLife(app, calls)
  {
    var life := calls + StopsDownTo(count, 0) + ShutdownsDownTo(app.instances, 0);
    assert Whole(app.instances, life, calls, count);
    assert calls <= life && IsLife(app, life);
  }

  lemma CleaningIsPart(app: App, s: State, p: Point)
    requires Cleaning(app, s, p)
    ensures IsPartOfLife(app, s.calls)
    ensures !Pending(p) ==> IsLife(app, s.calls)
  {
    if p.AtLoads? {
      BegunIsPart(app, s.calls, |s.entered|);
    } else {
      var stops, downs := StopsDownTo(s.count, 0), ShutdownsDownTo(app.instances, 0);
      var life := s.begun + stops + downs;
      assert Whole(app.instances, life, s.begun, s.count);
      assert IsLife(app, life);
      if p.AtStop? {
        StopsExtend(s.count, p.k);
        assert s.calls <= s.begun + stops <= life;
      } else if p.AtShutdown? {
        ShutdownsExtend(app.instances, p.i);
        assert s.calls <= life;
      }
    }
  }

  lemma SoundIsPart(app: App, s: State)
    requires Sound(app, s)
    ensures IsPartOfLife(app, s.calls)
    ensures s.status.Stopped? || s.status.FailedCleaned? ==> IsLife(app, s.calls)
  {
    if s.starts == [] {
      if s.disposal.Uncalled? {
        BegunIsPart(app, [], 0);
      } else {
        CleaningIsPart(app, s, s.disposal);
      }
    } else if StartingUp(app, s, s.starts[0]) {
      FailureBegins(app, s, s.starts[0]);
      BegunIsPart(app, s.calls, |s.entered|);
    } else if s.starts[0].Succeeded? && Unasked(s.disposal) {
      BegunIsPart(app, s.calls, |s.entered|);
    } else {
      CleaningIsPart(app, s, if s.starts[0].Succeeded? then s.disposal else s.starts[0]);
    }
  }

  /**
   * The trace of a calm run. However init and dispose interleave, and whatever fails, the calls made
   * are the beginning of a life, and they are all of one once the application is stopped or has
   * cleaned up after a failed start.
   */
  lemma CalmRunsAreExact(app: App, events: seq<Event>)
    requires Calm(app, events)
    ensures IsPartOfLife(app, From(app, INITIAL, events).calls)
    ensures var s := From(app, INITIAL, events);
            s.status.Stopped? || s.status.FailedCleaned? ==> IsLife(app, s.calls)
  {
    CalmRunsAreSound(app, events);
    SoundIsPart(app, From(app, INITIAL, events));
  }

  // ---- every life ends, also with calls from inside a first hook ----

  /** How many more settlements an actor can need when at most `bound` extensions can be entered. */
  function Distance(app: App, bound: nat, p: Point): nat {
    var n, x := |app.instances|, app.extensions;
    match p
    case AtInit(i) => n + bound + 3 + x + 1 + n + 2 + (if i < n then n - i else 0)
    case AtBoot(i) => n + bound + 3 + x + 1 + 1 + (if i < n then n - i else 0)
    case AtReady => n + bound + 3 + x + 1
    case AtStart(j) => n + bound + 3 + (if j < x then x - j else 0)
    case AwaitInit(_) => n + bound + 3
    case AtLoads => n + bound + 2
    case AtStop(k) => n + 1 + k
    case AtShutdown(i) => i + 1
    case _ => 0
  }

  function AllDistances(app: App, bound: nat, starts: seq<Point>): nat
  {
    if starts == [] then 0
    else AllDistances(app, bound, starts[..|starts| - 1]) + Distance(app, bound, starts[|starts| - 1])
  }

  lemma {:induction false} DistanceAt(app: App, bound: nat, starts: seq<Point>, i: nat, p: Point)
    requires i < |starts|
    ensures AllDistances(app, bound, starts[i := p]) + Distance(app, bound, starts[i])
         == AllDistances(app, bound, starts) + Distance(app, bound, p)
  {
    hide Distance;
    var k := |starts| - 1;
    if i == k {
      assert starts[i := p][..k] == starts[..k];
    } else {
      DistanceAt(app, bound, starts[..k], i, p);
      assert starts[i := p][..k] == starts[..k][i := p];
    }
  }

  /** How many extensions a start may still enter. */
  function ToEnter(app: App, p: Point): nat {
    match p
    case AtInit(_) => app.extensions
    case AtBoot(_) => app.extensions
    case AtReady => app.extensions
    case AtStart(j) => if j + 1 < app.extensions then app.extensions - j - 1 else 0
    case _ => 0
  }

  function AllToEnter(app: App, starts: seq<Point>): nat
  {
    if starts == [] then 0 else AllToEnter(app, starts[..|starts| - 1]) + ToEnter(app, starts[|starts| - 1])
  }

  lemma {:induction false} ToEnterAt(app: App, starts: seq<Point>, i: nat, p: Point)
    requires i < |starts|
    ensures AllToEnter(app, starts[i := p]) + ToEnter(app, starts[i]) == AllToEnter(app, starts) + ToEnter(app, p)
  {
    hide ToEnter;
    var k := |starts| - 1;
    if i == k {
      assert starts[i := p][..k] == starts[..k];
    } else {
      ToEnterAt(app, starts[..k], i, p);
      assert starts[i := p][..k] == starts[..k][i := p];
    }
  }

  function Bound(app: App, s: State): nat {
    |s.starts| * app.extensions
  }

  /** What holds in every run, also with calls from inside the window. */
  ghost predicate Bounded(app: App, s: State) {
    && |s.entered| + AllToEnter(app, s.starts) + ToEnter(app, s.disposal) <= Bound(app, s)
    && s.open <= |s.starts| && (s.promise.Some? ==> s.promise.value < |s.starts|)
    && (s.disposal.AwaitInit? ==> s.disposal.start < |s.starts|)
    && (forall i | 0 <= i < |s.starts| :: !s.starts[i].AwaitInit?)
  }

  /** At most how many more settlements there can be, and returns of a first hook. */
  function Remaining(app: App, s: State): nat {
    AllDistances(app, Bound(app, s), s.starts) + Distance(app, Bound(app, s), s.disposal) + s.open
  }

  lemma {:induction false} NextBootRange(instances: seq<Instance>, i: nat)
    ensures var p := NextBoot(instances, i); p.AtReady? || (p.AtBoot? && i <= p.i < |instances|)
    decreases |instances| - i
  {
    if i < |instances| && !instances[i].bootstrap {
      NextBootRange(instances, i + 1);
    }
  }

  lemma {:induction false} NextInitRange(instances: seq<Instance>, i: nat)
    ensures var p := NextInit(instances, i);
            p.AtReady? || (p.AtBoot? && p.i < |instances|) || (p.AtInit? && i <= p.i < |instances|)
    decreases |instances| - i
  {
    if i >= |instances| {
      NextBootRange(instances, 0);
    } else if !instances[i].moduleInit {
      NextInitRange(instances, i + 1);
    }
  }

  /** Where cleaning up goes on. */
  lemma CleaningIsNearer(app: App, s: State, a: Actor, k: nat)
    requires Exists(s, a)
    ensures var t := ShutdownFrom(app, s, a, k);
            && t == Put(s, a, At(t, a)).(status := t.status, calls := t.calls)
            && (At(t, a).AtShutdown? ==> At(t, a).i < k && At(t, a).i < |app.instances|)
            && (At(t, a).AtShutdown? || At(t, a).Succeeded? || At(t, a).Failed?)
    ensures var t := StopFrom(app, s, a, k);
            && (t.entered == s.entered || t.entered == [])
            && t == Put(s, a, At(t, a)).(status := t.status, calls := t.calls, entered := t.entered)
            && (At(t, a).AtStop? ==> At(t, a).k < k && At(t, a).k < |s.entered|)
            && (At(t, a).AtShutdown? ==> At(t, a).i < |app.instances|)
            && (At(t, a).AtStop? || At(t, a).AtShutdown? || At(t, a).Succeeded? || At(t, a).Failed?)
  {
    hide NextInit, NextBoot;
  }

  /** A settled actor moves on to a nearer point, and enters at most one of the extensions it had left. */
  ghost predicate Nearer(app: App, bound: nat, s: State, t: State, a: Actor)
    requires Exists(s, a)
  {
    && Exists(t, a) && t.promise == s.promise && t.open == s.open
    && t.starts == (if a.Starter? then s.starts[a.start := At(t, a)] else s.starts)
    && (a.Starter? ==> t.disposal == s.disposal)
    && (|s.entered| <= bound ==> Distance(app, bound, At(t, a)) < Distance(app, bound, At(s, a)))
    && |t.entered| + ToEnter(app, At(t, a)) <= |s.entered| + ToEnter(app, At(s, a))
    && !At(t, a).AwaitInit?
  }

  lemma NearerBy(app: App, bound: nat, s: State, t: State, a: Actor, p: Point)
    requires Exists(s, a) && !p.AwaitInit?
    requires t == Put(s, a, p).(status := t.status, calls := t.calls, entered := t.entered, begun := t.begun,
                                count := t.count)
    requires |s.entered| <= bound ==> Distance(app, bound, p) < Distance(app, bound, At(s, a))
    requires |t.entered| + ToEnter(app, p) <= |s.entered| + ToEnter(app, At(s, a))
    ensures Nearer(app, bound, s, t, a)
  {
    hide Distance, ToEnter;
  }

  /** The points of a clean-up in the order it comes to them. */
  lemma CleaningDescends(app: App, bound: nat, from: Point, p: Point)
    requires from.AtLoads? || from.AtStop? || from.AtShutdown?
    requires || p.Succeeded? || p.Failed?
             || (p.AtShutdown? && p.i < |app.instances| && (from.AtShutdown? ==> p.i < from.i))
             || (p.AtStop? && if from.AtStop? then p.k < from.k else from.AtLoads? && p.k < bound)
    ensures Distance(app, bound, p) < Distance(app, bound, from) && ToEnter(app, p) == 0
  {
  }

  lemma CleanUpMovesNearer(app: App, bound: nat, s: State, a: Actor, ok: bool)
    requires Exists(s, a) && (At(s, a).AtLoads? || At(s, a).AtStop? || At(s, a).AtShutdown?)
    ensures Nearer(app, bound, s, Resume(app, s, a, ok), a)
  {
    var t := Resume(app, s, a, ok);
    hide ShutdownFrom, StopFrom, NextInit, NextBoot, Nearer, Distance, ToEnter;
    match At(s, a) {
      case AtLoads => CleaningIsNearer(app, s.(begun := s.calls, count := |s.entered|), a, |s.entered|);
      case AtStop(k) => CleaningIsNearer(app, s, a, k);
      case AtShutdown(i) => CleaningIsNearer(app, s, a, i);
    }
    if |s.entered| <= bound {
      CleaningDescends(app, bound, At(s, a), At(t, a));
    } else {
      CleaningDescends(app, |s.entered|, At(s, a), At(t, a));
    }
    NearerBy(app, bound, s, t, a, At(t, a));
  }

  lemma StartMovesNearer(app: App, bound: nat, s: State, a: Actor, ok: bool)
    requires Exists(s, a) && (At(s, a).AtInit? || At(s, a).AtBoot? || At(s, a).AtReady? || At(s, a).AtStart?)
    ensures Nearer(app, bound, s, Resume(app, s, a, ok), a)
  {
    var t := Resume(app, s, a, ok);
    hide NextInit, NextBoot, HookAt, ShutdownFrom, StopFrom, Nearer;
    match At(s, a) {
      case AtInit(i) => NextInitRange(app.instances, i + 1);
      case AtBoot(i) => NextBootRange(app.instances, i + 1);
      case _ =>
    }
    NearerBy(app, bound, s, t, a, At(t, a));
  }

  lemma WaitMovesNearer(app: App, bound: nat, s: State, a: Actor, ok: bool)
    requires Exists(s, a) && At(s, a).AwaitInit?
    ensures Nearer(app, bound, s, Resume(app, s, a, ok), a)
  {
  }

  lemma MovesNearer(app: App, bound: nat, s: State, a: Actor, ok: bool)
    requires Exists(s, a) && Pending(At(s, a))
    ensures Nearer(app, bound, s, Resume(app, s, a, ok), a)
  {
    hide Nearer, NextInit, NextBoot, ShutdownFrom, StopFrom, NextStart;
    match At(s, a)
    case AwaitInit(_) => WaitMovesNearer(app, bound, s, a, ok);
    case AtLoads => CleanUpMovesNearer(app, bound, s, a, ok);
    case AtStop(_) => CleanUpMovesNearer(app, bound, s, a, ok);
    case AtShutdown(_) => CleanUpMovesNearer(app, bound, s, a, ok);
    case _ => StartMovesNearer(app, bound, s, a, ok);
  }

  /** Every settlement, and every return of a first hook, brings a run nearer to its end. */
  lemma StepIsNearer(app: App, s: State, e: Event)
    requires Bounded(app, s) && Enabled(s, e) && (e.Settle? || e.Return?)
    ensures Bounded(app, Do(app, s, e)) && Remaining(app, Do(app, s, e)) < Remaining(app, s)
  {
    if e.Settle? {
      MovesNearer(app, Bound(app, s), s, e.actor, e.ok);
      hide Distance, ToEnter, AllDistances, AllToEnter, Resume;
      var t := Resume(app, s, e.actor, e.ok);
      if e.actor.Starter? {
        DistanceAt(app, Bound(app, s), s.starts, e.actor.start, At(t, e.actor));
        ToEnterAt(app, s.starts, e.actor.start, At(t, e.actor));
      }
    }
  }

  lemma CallKeepsBounded(app: App, s: State, e: Event)
    requires Bounded(app, s) && (e.CallInit? || e.CallDispose?)
    ensures Bounded(app, Do(app, s, e))
  {
    if e.CallInit? && s.disposal.Uncalled? && s.promise.None? {
      var p := NextInit(app.instances, 0);
      NextInitRange(app.instances, 0);
      assert (s.starts + [p])[..|s.starts|] == s.starts;
      assert (|s.starts| + 1) * app.extensions == Bound(app, s) + app.extensions;
      hide NextInit, HookAt;
    }
  }

  /** Any run at all, whatever is called from inside the first hooks. */
  lemma {:induction false} EveryRunIsBounded(app: App, events: seq<Event>)
    ensures Bounded(app, From(app, INITIAL, events))
  {
    if events != [] {
      EveryRunIsBounded(app, events[..|events| - 1]);
      hide Bounded, Remaining, Do;
      var before, e := From(app, INITIAL, events[..|events| - 1]), events[|events| - 1];
      if Enabled(before, e) {
        if e.CallInit? || e.CallDispose? {
          CallKeepsBounded(app, before, e);
        } else {
          StepIsNearer(app, before, e);
        }
      }
    }
  }

  /** As long as a run awaits something, something it awaits can settle, or a first hook can return. */
  lemma SomethingCanSettle(app: App, s: State, ok: bool) returns (e: Event)
    requires Bounded(app, s) && !Quiet(s)
    ensures Enabled(s, e) && (e.Return? || (e.Settle? && e.ok == ok))
  {
    if s.open > 0 {
      e := Return;
    } else if i :| 0 <= i < |s.starts| && Pending(s.starts[i]) {
      e := Settle(Starter(i), ok);
    } else {
      e := Settle(Disposer, ok);
    }
  }

  ghost predicate AllSettle(app: App, s: State, events: seq<Event>)
  {
    events == [] || (
      var k := |events| - 1;
      && AllSettle(app, s, events[..k]) && (events[k].Settle? || events[k].Return?)
      && Enabled(From(app, s, events[..k]), events[k]))
  }

  /**
   * So however the hooks return and settle, they do it only so often: from any state of any run every
   * start and every disposal ends.
   */
  lemma {:induction false} EveryLifeEnds(app: App, s: State, events: seq<Event>)
    requires Bounded(app, s) && AllSettle(app, s, events)
    ensures var t := From(app, s, events);
            Bounded(app, t) && |events| + Remaining(app, t) <= Remaining(app, s)
  {
    if events != [] {
      var k := |events| - 1;
      EveryLifeEnds(app, s, events[..k]);
      StepIsNearer(app, From(app, s, events[..k]), events[k]);
    }
  }

  /** What a calm run has come to when nothing is awaited any more. */
  lemma QuietMeans(app: App, s: State)
    requires Sound(app, s) && Quiet(s)
    ensures s.disposal.Uncalled? ==>
              s.status == if s.starts == [] then Created else if s.starts[0].Failed? then FailedCleaned else Running
    ensures !s.disposal.Uncalled? ==> s.status.Stopped? || s.status.FailedCleaned?
    ensures !s.disposal.Uncalled? && s.starts != [] ==> (s.status.FailedCleaned? <==> s.starts[0].Failed?)
  {
  }

  /** A start that has failed. */
  ghost predicate HasFailed(s: State) {
    |s.starts| == 1 && (s.starts[0].AtLoads? || s.starts[0].AtStop? || s.starts[0].AtShutdown? || s.starts[0].Failed?)
  }

  /**
   * A hook or extension that fails while the application starts leads to its clean-up, never to a running
   * application.
   */
  lemma FailureIsFinal(app: App, s: State, e: Event)
    requires Sound(app, s) && Enabled(s, e) && s.open == 0
    requires HasFailed(s) || (|s.starts| == 1 && StartingUp(app, s, s.starts[0]) && !s.starts[0].AtReady?
             && e == Settle(Starter(0), false))
    ensures HasFailed(Do(app, s, e)) && !Do(app, s, e).status.Running?
  {
    StepKeepsSound(app, s, e);
    if HasFailed(s) && e.Settle? && e.actor == Starter(0) {
      CleaningGoesOn(app, s, e.actor, e.ok);
    }
  }

  // ---- the window ----

  /** No instance has a hook that a start calls before its extensions. */
  predicate Hookless(app: App) {
    forall i | 0 <= i < |app.instances| :: !app.instances[i].moduleInit && !app.instances[i].bootstrap
  }

  lemma {:induction false} NextBootFinds(instances: seq<Instance>, i: nat)
    ensures NextBoot(instances, i).AtReady? <==> forall k | i <= k < |instances| :: !instances[k].bootstrap
    ensures NextBoot(instances, i).AtReady? || NextBoot(instances, i).AtBoot?
    decreases |instances| - i
  {
    if i < |instances| {
      NextBootFinds(instances, i + 1);
    }
  }

  lemma {:induction false} NextInitFinds(instances: seq<Instance>, i: nat)
    ensures if forall k | i <= k < |instances| :: !instances[k].moduleInit
            then NextInit(instances, i) == NextBoot(instances, 0)
            else NextInit(instances, i).AtInit?
    decreases |instances| - i
  {
    if i < |instances| {
      NextInitFinds(instances, i + 1);
    }
  }

  /** Without a module-init or bootstrap hook there is no window. */
  lemma HookReadyWhen(app: App)
    ensures NextInit(app.instances, 0).AtReady? <==> Hookless(app)
  {
    NextInitFinds(app.instances, 0);
    NextBootFinds(app.instances, 0);
  }

  lemma HooklessStep(app: App, s: State, e: Event)
    requires Hookless(app) && s.open == 0 && Enabled(s, e)
    ensures Do(app, s, e).open == 0
  {
    HookReadyWhen(app);
  }

  lemma {:induction false} HooklessRunsAreCalm(app: App, events: seq<Event>)
    requires Hookless(app)
    ensures From(app, INITIAL, events).open == 0 && Calm(app, events)
  {
    if events != [] {
      HooklessRunsAreCalm(app, events[..|events| - 1]);
      var before := From(app, INITIAL, events[..|events| - 1]);
      if Enabled(before, events[|events| - 1]) {
        HooklessStep(app, before, events[|events| - 1]);
        hide Do;
      }
    }
  }

  lemma CleaningOnlyGrows(app: App, s: State, a: Actor, k: nat)
    requires Exists(s, a)
    ensures s.calls <= ShutdownFrom(app, s, a, k).calls && s.calls <= StopFrom(app, s, a, k).calls
  {
  }

  lemma StepOnlyGrows(app: App, s: State, e: Event)
    requires Enabled(s, e)
    ensures s.calls <= Do(app, s, e).calls
  {
    hide StopFrom, ShutdownFrom, NextInit, NextBoot, HookAt;
    if e.Settle? {
      var r := s.(begun := s.calls, count := |s.entered|);
      CleaningOnlyGrows(app, r, e.actor, |s.entered|);
      match At(s, e.actor)
      case AtStop(k) => CleaningOnlyGrows(app, s, e.actor, k);
      case AtShutdown(i) => CleaningOnlyGrows(app, s, e.actor, i);
      case _ =>
    }
  }

  lemma {:induction false} CallsOnlyGrow(app: App, s: State, more: seq<Event>)
    ensures s.calls <= From(app, s, more).calls
  {
    if more != [] {
      CallsOnlyGrow(app, s, more[..|more| - 1]);
      var before := From(app, s, more[..|more| - 1]);
      if Enabled(before, more[|more| - 1]) {
        StepOnlyGrows(app, before, more[|more| - 1]);
        hide Do;
      }
    }
  }

  lemma TwiceIsNoLife(app: App, calls: seq<Call>, c: Call)
    requires multiset(calls)[c] > 1
    ensures !IsLife(app, calls)
  {
    if IsLife(app, calls) {
      var begun, count: nat :| count <= app.extensions && Whole(app.instances, calls, begun, count);
      EveryHookOnce(app.instances, calls, begun, count, c);
    }
  }

  /** The first hook of a start, which the window belongs to, has been called. */
  lemma FirstHookCalled(app: App, s: State)
    requires Sound(app, s) && s.open > 0
    ensures HookAt(NextInit(app.instances, 0)) == s.calls && |s.calls| == 1
  {
    var p := NextInit(app.instances, 0);
    NextInitIs(app, 0);
    NextBootIs(app, 0);
    assert InitCalls(app.instances, 0) == [] && BootCalls(app.instances, 0) == [];
  }

  /**
   * Init from inside the first hook starts the application a second time: the hook is called again,
   * so that whatever happens afterwards, the calls are those of no life.
   */
  lemma InitInWindow(app: App, s: State, more: seq<Event>)
    requires Sound(app, s) && s.open > 0
    ensures !IsLife(app, From(app, Do(app, s, CallInit), more).calls)
  {
    FirstHookCalled(app, s);
    var c := s.calls[0];
    var again := Do(app, s, CallInit);
    assert again.calls == [c, c];
    CallsOnlyGrow(app, again, more);
    PrefixCounts(again.calls, From(app, again, more).calls, c);
    TwiceIsNoLife(app, From(app, again, more).calls, c);
  }

  /** Nothing of the application would have to be stopped or shut down. */
  predicate NothingToStop(app: App) {
    app.extensions == 0 && forall i | 0 <= i < |app.instances| :: !app.instances[i].shutdown
  }

  // A disposal from inside the first hook, with nothing to stop: only the start makes calls.

  ghost predicate Harmless(app: App, s: State) {
    && |s.starts| == 1 && s.entered == [] && s.open <= 1
    && (s.disposal.AtLoads? || s.disposal.Succeeded?)
    && (StartingUp(app, s, s.starts[0])
        || ((s.starts[0].AtLoads? || s.starts[0].Succeeded? || s.starts[0].Failed?)
          && s.calls <= RunInit(app.instances)))
  }

  lemma {:induction false} NoShutdowns(instances: seq<Instance>, i: nat)
    requires i <= |instances| && forall k | 0 <= k < |instances| :: !instances[k].shutdown
    ensures ShutdownsDownTo(instances, i) == []
    decreases |instances| - i
  {
    if i < |instances| {
      NoShutdowns(instances, i + 1);
    }
  }

  lemma {:induction false} NothingToShutDown(instances: seq<Instance>, i: nat)
    requires i <= |instances| && forall k | 0 <= k < |instances| :: !instances[k].shutdown
    ensures LastShutdown(instances, i) == None && ShutdownsDownTo(instances, i) == []
  {
    if i > 0 {
      NothingToShutDown(instances, i - 1);
    }
    NoShutdowns(instances, i);
  }

  lemma StartStaysHarmless(app: App, s: State, ok: bool)
    requires NothingToStop(app) && Harmless(app, s) && StartingUp(app, s, s.starts[0])
    ensures Harmless(app, Resume(app, s, Starter(0), ok))
  {
    FailureBegins(app, s, s.starts[0]);
    if ok {
      match s.starts[0]
      case AtInit(i) => HookReached(app, s, i + 1);
      case AtBoot(i) => BootReached(app, s, i + 1);
      case _ =>
    }
  }

  lemma StepStaysHarmless(app: App, s: State, e: Event)
    requires NothingToStop(app) && Harmless(app, s) && Enabled(s, e)
    ensures Harmless(app, Do(app, s, e))
  {
    if e.Settle? && e.actor == Starter(0) && StartingUp(app, s, s.starts[0]) {
      StartStaysHarmless(app, s, e.ok);
    } else if e.Settle? {
      NothingToShutDown(app.instances, |app.instances|);
    }
  }

  lemma {:induction false} StaysHarmless(app: App, s: State, more: seq<Event>)
    requires NothingToStop(app) && Harmless(app, s)
    ensures Harmless(app, From(app, s, more))
  {
    if more != [] {
      StaysHarmless(app, s, more[..|more| - 1]);
      var before := From(app, s, more[..|more| - 1]);
      if Enabled(before, more[|more| - 1]) {
        StepStaysHarmless(app, before, more[|more| - 1]);
      }
    }
  }

  lemma HarmlessIsLife(app: App, s: State)
    requires NothingToStop(app) && Harmless(app, s) && Quiet(s)
    ensures IsLife(app, s.calls)
  {
    NoShutdowns(app.instances, 0);
    assert !Pending(s.starts[0]);
    assert Whole(app.instances, s.calls, s.calls, 0);
  }

  // Otherwise it can go wrong: let the disposal end before the first hook settles.

  lemma FromOne(app: App, s: State, e: Event)
    requires Enabled(s, e)
    ensures From(app, s, [e]) == Do(app, s, e)
  {
    assert From(app, s, []) == s;
    assert [e][..0] == [];
  }

  lemma {:induction false} FromTwo(app: App, s: State, a: seq<Event>, b: seq<Event>)
    ensures From(app, s, a + b) == From(app, From(app, s, a), b)
  {
    if b == [] {
      assert a + b == a;
    } else {
      var k := |b| - 1;
      assert (a + b)[..|a + b| - 1] == a + b[..k];
      FromTwo(app, s, a, b[..k]);
    }
  }

  /** The end of an actor's clean-up when nothing was entered: one shutdown pass. */
  function Ended(app: App, s: State, a: Actor, calls: seq<Call>): State
    requires Exists(s, a)
  {
    var t := s.(calls := calls);
    if a.Disposer? then Put(t.(status := Stopped), a, Succeeded) else Put(t.(status := FailedCleaned), a, Failed)
  }

  lemma {:induction false} ShutdownPass(app: App, s: State, a: Actor, i: nat, base: seq<Call>)
    returns (more: seq<Event>)
    requires Exists(s, a) && s.open == 0 && i < |app.instances| && At(s, a) == AtShutdown(i)
    requires s.calls == base + ShutdownsDownTo(app.instances, i)
    ensures From(app, s, more) == Ended(app, s, a, base + ShutdownsDownTo(app.instances, 0))
    decreases i
  {
    var e := Settle(a, true);
    FromOne(app, s, e);
    LastShutdownIs(app.instances, i);
    match LastShutdown(app.instances, i) {
      case None => more := [e];
      case Some(x) =>
        var next := Do(app, s, e);
        assert next.calls == base + (ShutdownsDownTo(app.instances, i) + [Shutdown(x)]);
        var rest := ShutdownPass(app, next, a, x, base);
        more := [e] + rest;
        FromTwo(app, s, [e], rest);
    }
  }

  lemma CleanUpAll(app: App, s: State, a: Actor) returns (more: seq<Event>)
    requires Exists(s, a) && s.open == 0 && At(s, a).AtLoads? && s.entered == []
    ensures From(app, s, more)
            == Ended(app, s.(begun := s.calls, count := 0), a, s.calls + ShutdownsDownTo(app.instances, 0))
  {
    var n := |app.instances|;
    var e := Settle(a, true);
    FromOne(app, s, e);
    LastShutdownIs(app.instances, n);
    var next := Do(app, s, e);
    assert ShutdownsDownTo(app.instances, n) == [];
    match LastShutdown(app.instances, n) {
      case None => more := [e];
      case Some(x) =>
        assert next.calls == s.calls + (ShutdownsDownTo(app.instances, n) + [Shutdown(x)]);
        var rest := ShutdownPass(app, next, a, x, s.calls);
        more := [e] + rest;
        FromTwo(app, s, [e], rest);
    }
  }

  ghost predicate GoesWell(app: App, s: State) {
    |s.starts| == 1 && match s.starts[0]
                       case AtInit(i) => i < |app.instances|
                       case AtBoot(i) => i < |app.instances|
                       case AtReady => true
                       case AtStart(_) => Start(0) in s.calls
                       case _ => false
  }

  lemma StartStep(app: App, s: State)
    requires s.open == 0 && |s.starts| == 1 && app.extensions > 0
    requires GoesWell(app, s) && forall j :: Stop(j) !in s.calls
    ensures var t := Do(app, s, Settle(Starter(0), true));
            && |t.starts| == 1 && t.open == 0 && t.disposal == s.disposal && (forall j :: Stop(j) !in t.calls)
            && Distance(app, 0, t.starts[0]) < Distance(app, 0, s.starts[0])
            && if t.starts[0].Succeeded? then t.status.Running? && Start(0) in t.calls else GoesWell(app, t)
  {
    hide InitCalls, BootCalls, RunInit, StartCalls, NextInit, NextBoot;
    match s.starts[0]
    case AtInit(i) =>
      NextInitIs(app, i + 1);
      FirstBoot(app);
    case AtBoot(i) => NextBootIs(app, i + 1);
    case _ =>
  }

  /** A start whose hooks all settle well runs through, and stops nothing. */
  lemma {:induction false} StartThrough(app: App, s: State) returns (more: seq<Event>)
    requires s.open == 0 && |s.starts| == 1 && app.extensions > 0 && s.disposal.Succeeded?
    requires GoesWell(app, s) && forall j :: Stop(j) !in s.calls
    ensures var t := From(app, s, more);
            && t.starts == [Succeeded] && t.open == 0 && t.disposal.Succeeded? && t.status.Running?
            && Start(0) in t.calls && forall j :: Stop(j) !in t.calls
    decreases Distance(app, 0, s.starts[0])
  {
    var e := Settle(Starter(0), true);
    FromOne(app, s, e);
    var next := Do(app, s, e);
    StartStep(app, s);
    if next.starts[0].Succeeded? {
      more := [e];
    } else {
      var rest := StartThrough(app, next);
      more := [e] + rest;
      FromTwo(app, s, [e], rest);
    }
  }

  lemma StopsMissing(app: App, calls: seq<Call>)
    requires Start(0) in calls && Stop(0) !in calls
    ensures !IsLife(app, calls)
  {
    if IsLife(app, calls) {
      var begun, count: nat :| count <= app.extensions && Whole(app.instances, calls, begun, count);
      EveryHookOnce(app.instances, calls, begun, count, Stop(0));
    }
  }

  /** In the window with a disposal asked for, and the first hook returned. */
  lemma WindowLeft(app: App, s: State)
    requires Sound(app, s) && s.open > 0
    ensures var d := Do(app, Do(app, s, CallDispose), Return);
            && d.open == 0 && d.disposal.AtLoads? && d.entered == []
            && d.starts == s.starts == [NextInit(app.instances, 0)]
            && d.calls == s.calls && |s.calls| == 1 && !s.calls[0].Stop? && !s.calls[0].Start?
            && (d.starts[0].AtInit? || d.starts[0].AtBoot?) && GoesWell(app, d)
  {
    FirstHookCalled(app, s);
    NextInitIs(app, 0);
    NextBootIs(app, 0);
  }

  lemma {:induction false} OnlyShutdowns(instances: seq<Instance>, i: nat)
    ensures forall c | c in ShutdownsDownTo(instances, i) :: c.Shutdown?
    ensures forall k | i <= k < |instances| && instances[k].shutdown :: Shutdown(k) in ShutdownsDownTo(instances, i)
    decreases |instances| - i
  {
    if i < |instances| {
      OnlyShutdowns(instances, i + 1);
    }
  }

  /** With extensions: the disposal ends first, then the start enters extensions that nothing stops. */
  lemma ExtensionsLeftRunning(app: App, s: State) returns (more: seq<Event>)
    requires Sound(app, s) && s.open > 0 && app.extensions > 0
    ensures var t := From(app, Do(app, s, CallDispose), more);
            && Quiet(t) && t.status.Running? && Start(0) in t.calls && (forall j :: Stop(j) !in t.calls)
            && !IsLife(app, t.calls)
  {
    var asked := Do(app, s, CallDispose);
    WindowLeft(app, s);
    FromOne(app, asked, Return);
    var left := Do(app, asked, Return);
    var first := CleanUpAll(app, left, Disposer);
    var disposed := From(app, left, first);
    OnlyShutdowns(app.instances, 0);
    assert disposed.calls == s.calls + ShutdownsDownTo(app.instances, 0);
    var second := StartThrough(app, disposed);
    more := [Return] + first + second;
    FromTwo(app, asked, [Return] + first, second);
    FromTwo(app, asked, [Return], first);
    StopsMissing(app, From(app, disposed, second).calls);
  }

  lemma CountedTwice(a: seq<Call>, b: seq<Call>, c: Call)
    requires c in b
    ensures multiset(a + b + b)[c] > 1
  {
  }

  lemma TwoPasses(app: App, calls: seq<Call>, x: nat)
    requires x < |app.instances| && app.instances[x].shutdown
    ensures var downs := ShutdownsDownTo(app.instances, 0);
            && multiset(calls + downs + downs)[Shutdown(x)] > 1
            && !IsLife(app, calls + downs + downs)
  {
    hide ShutdownsDownTo, IsLife;
    var downs := ShutdownsDownTo(app.instances, 0);
    OnlyShutdowns(app.instances, 0);
    CountedTwice(calls, downs, Shutdown(x));
    TwiceIsNoLife(app, calls + downs + downs, Shutdown(x));
  }

  /** The first hook fails, and the start cleans up. */
  lemma FailAndCleanUp(app: App, s: State) returns (more: seq<Event>)
    requires s.open == 0 && |s.starts| == 1 && s.entered == [] && (s.starts[0].AtInit? || s.starts[0].AtBoot?)
    ensures var t := From(app, s, more);
            && t.calls == s.calls + ShutdownsDownTo(app.instances, 0)
            && t.open == 0 && t.starts == [Failed] && t.disposal == s.disposal
  {
    var e := Settle(Starter(0), false);
    FromOne(app, s, e);
    var rest := CleanUpAll(app, Do(app, s, e), Starter(0));
    more := [e] + rest;
    FromTwo(app, s, [e], rest);
  }

  /** With a shutdown hook: the disposal ends first, then the first hook fails and the start shuts down again. */
  lemma ShutDownTwice(app: App, s: State, x: nat) returns (more: seq<Event>)
    requires Sound(app, s) && s.open > 0 && x < |app.instances| && app.instances[x].shutdown
    ensures var t := From(app, Do(app, s, CallDispose), more);
            Quiet(t) && multiset(t.calls)[Shutdown(x)] > 1 && !IsLife(app, t.calls)
  {
    hide From, ShutdownsDownTo, IsLife, GoesWell, Whole, NextInit, NextBoot;
    var downs := ShutdownsDownTo(app.instances, 0);
    var asked := Do(app, s, CallDispose);
    WindowLeft(app, s);
    FromOne(app, asked, Return);
    var left := Do(app, asked, Return);
    hide Sound, Do;
    var first := CleanUpAll(app, left, Disposer);
    var disposed := From(app, left, first);
    var second := FailAndCleanUp(app, disposed);
    more := [Return] + first + second;
    FromTwo(app, asked, [Return] + first, second);
    FromTwo(app, asked, [Return], first);
    TwoPasses(app, s.calls, x);
  }

  /**
   * Dispose from inside the first hook, exactly: it is safe, so that however the run goes on its
   * calls are those of a life when nothing is awaited any more, if and only if the application has no
   * extension and no shutdown hook.
   */
  lemma DisposeInWindow(app: App, s: State)
    requires Sound(app, s) && s.open > 0
    ensures (forall more :: Quiet(From(app, Do(app, s, CallDispose), more)) ==>
              IsLife(app, From(app, Do(app, s, CallDispose), more).calls))
            <==> NothingToStop(app)
  {
    var asked := Do(app, s, CallDispose);
    if NothingToStop(app) {
      WindowLeft(app, s);
      forall more | Quiet(From(app, asked, more))
        ensures IsLife(app, From(app, asked, more).calls)
      {
        StaysHarmless(app, asked, more);
        HarmlessIsLife(app, From(app, asked, more));
      }
    } else if app.extensions > 0 {
      var more := ExtensionsLeftRunning(app, s);
      assert Quiet(From(app, asked, more));
    } else {
      var x: nat :| x < |app.instances| && app.instances[x].shutdown;
      var more := ShutDownTwice(app, s, x);
      assert Quiet(From(app, asked, more));
    }
  }

  /** Once disposed and quiet, an application does nothing more. */
  lemma {:induction false} QuietStaysQuiet(app: App, s: State, more: seq<Event>)
    requires Quiet(s) && !s.disposal.Uncalled?
    ensures From(app, s, more) == s
  {
    if more != [] {
      QuietStaysQuiet(app, s, more[..|more| - 1]);
    }
  }

  /** Two or three events in a row. */
  lemma FromPair(app: App, s: State, e: Event, f: Event)
    requires Enabled(s, e) && Enabled(Do(app, s, e), f)
    ensures From(app, s, [e, f]) == Do(app, Do(app, s, e), f)
  {
    FromOne(app, s, e);
    FromOne(app, Do(app, s, e), f);
    assert [e, f] == [e] + [f];
    FromTwo(app, s, [e], [f]);
  }

  const ONE_EACH: App := App([Instance(true, false, false)], 1)

  /** The state after init and dispose have both been called, dispose from inside the first hook. */
  const ASKED: State := State(Stopping, [], None, [AtInit(0)], AtLoads, 1, [ModuleInit(0)], [], 0)

  const DISPOSED: State := State(Stopped, [], Some(0), [AtInit(0)], Succeeded, 0, [ModuleInit(0)], [ModuleInit(0)], 0)

  const LEFT_RUNNING: State :=
    State(Running, [0], Some(0), [Succeeded], Succeeded, 0, [ModuleInit(0), Start(0)], [ModuleInit(0)], 0)

  lemma BothCalled()
    ensures From(ONE_EACH, INITIAL, [CallInit, CallDispose]) == ASKED
  {
    FromPair(ONE_EACH, INITIAL, CallInit, CallDispose);
  }

  lemma DisposalEnds()
    ensures From(ONE_EACH, ASKED, [Return, Settle(Disposer, true)]) == DISPOSED
  {
    FromPair(ONE_EACH, ASKED, Return, Settle(Disposer, true));
    assert LastShutdown(ONE_EACH.instances, 1) == None;
  }

  lemma StartGoesThrough()
    ensures From(ONE_EACH, DISPOSED, [Settle(Starter(0), true), Settle(Starter(0), true)] + [Settle(Starter(0), true)])
            == LEFT_RUNNING
  {
    var e := Settle(Starter(0), true);
    FromPair(ONE_EACH, DISPOSED, e, e);
    FromOne(ONE_EACH, From(ONE_EACH, DISPOSED, [e, e]), e);
    FromTwo(ONE_EACH, DISPOSED, [e, e], [e]);
  }

  /**
   * A bad trace: one instance with an init hook, one extension. The hook disposes of the application;
   * the extension is started after that, and whatever happens then, it is never stopped.
   */
  lemma NeverStopped(more: seq<Event>)
    ensures var e := Settle(Starter(0), true);
            var run := [CallInit, CallDispose] + [Return, Settle(Disposer, true)] + ([e, e] + [e]);
            From(ONE_EACH, INITIAL, run + more) == LEFT_RUNNING
    ensures Start(0) in LEFT_RUNNING.calls && Stop(0) !in LEFT_RUNNING.calls && LEFT_RUNNING.disposal.Succeeded?
  {
    hide From;
    var a, b := [CallInit, CallDispose], [Return, Settle(Disposer, true)];
    var c := [Settle(Starter(0), true), Settle(Starter(0), true)] + [Settle(Starter(0), true)];
    BothCalled();
    DisposalEnds();
    StartGoesThrough();
    FromTwo(ONE_EACH, INITIAL, a, b);
    FromTwo(ONE_EACH, INITIAL, a + b, c);
    FromTwo(ONE_EACH, INITIAL, a + b + c, more);
    QuietStaysQuiet(ONE_EACH, LEFT_RUNNING, more);
  }

  /**
   * For which applications every run is exact, calls from inside hooks included: just those without a
   * module-init or bootstrap hook, which have no window.
   */
  lemma EveryRunIsExactWhen(app: App)
    ensures (forall events :: IsPartOfLife(app, From(app, INITIAL, events).calls)) <==> Hookless(app)
  {
    if Hookless(app) {
      forall events
        ensures IsPartOfLife(app, From(app, INITIAL, events).calls)
      {
        HooklessRunsAreCalm(app, events);
        CalmRunsAreExact(app, events);
      }
    } else {
      HookReadyWhen(app);
      var p := NextInit(app.instances, 0);
      NextInitIs(app, 0);
      NextBootIs(app, 0);
      FromPair(app, INITIAL, CallInit, CallInit);
      var calls := From(app, INITIAL, [CallInit, CallInit]).calls;
      assert calls == HookAt(p) + HookAt(p);
      if IsPartOfLife(app, calls) {
        var life :| calls <= life && IsLife(app, life);
        PrefixCounts(calls, life, HookAt(p)[0]);
        TwiceIsNoLife(app, life, HookAt(p)[0]);
      }
    }
  }
}
