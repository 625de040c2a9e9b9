/**
 * Every run of the job table: any number of workers, each reading its own clock, interleave
 * enqueues, claims, settlements and replays in any order and with any arguments.
 */
module JobRuns {
  import opened Wrappers
  import opened Jobs

  datatype Action =
    | EnqueueJob(job: Job, result: Result<Enqueued, Refusal>)
    | ClaimJobs(ids: seq<string>, holder: string, now: int, until: int)
    | SettleJob(settlement: Settlement)
    | ReplayJob(jobId: string, availableAt: int)

  /** One atomic statement of a run, with the table before and after it. */
  datatype Step = Step(action: Action, before: Store, after: Store)

  const EMPTY: Store := Store(map[], map[])

  function Ids(ids: seq<string>): set<string> { set id | id in ids }

  ghost predicate Performs(step: Step) {
    match step.action
    case EnqueueJob(job, result) => EnqueueDoes(step.before, job, result, step.after)
    case ClaimJobs(ids, holder, now, until) =>
      step.after == if CheckClaim(ids, holder, now, until).Some? then step.before
                    else ClaimAll(step.before, Ids(ids), holder, now, until)
    case SettleJob(x) => step.after == Settle(step.before, x).1
    case ReplayJob(id, at) => step.after == Replay(step.before, id, at).1
  }

  function Final(run: seq<Step>): Store {
    if run == [] then EMPTY else run[|run| - 1].after
  }

  ghost predicate IsRun(run: seq<Step>)
  {
    run == [] || (IsRun(run[..|run| - 1]) && run[|run| - 1].before == Final(run[..|run| - 1])
      && Performs(run[|run| - 1]))
  }

  // ---- the history of one job: grants and accepted settlements, oldest first ----

  datatype JobEvent = Grant(holder: string, now: int, until: int) | Accept(settlement: Settlement)

  predicate Grants(step: Step, id: string) {
    match step.action
    case ClaimJobs(ids, holder, now, until) =>
      CheckClaim(ids, holder, now, until).None? && id in ids && id in step.before.jobs
        && Claimable(step.before.jobs[id], now)
    case _ => false
  }

  predicate AcceptsNow(s: Store, x: Settlement) {
    Settle(s, x).0 == Success(true)
  }

  function EventsOf(step: Step, id: string): seq<JobEvent> {
    match step.action
    case ClaimJobs(_, holder, now, until) => if Grants(step, id) then [Grant(holder, now, until)] else []
    case SettleJob(x) => if x.jobId == id && AcceptsNow(step.before, x) then [Accept(x)] else []
    case _ => []
  }

  function History(run: seq<Step>, id: string): seq<JobEvent>
  {
    if run == [] then [] else History(run[..|run| - 1], id) + EventsOf(run[|run| - 1], id)
  }

  /** The latest grant, if no settlement has been accepted since. */
  predicate OpenFor(h: seq<JobEvent>, holder: string) {
    h != [] && h[|h| - 1].Grant? && h[|h| - 1].holder == holder
  }

  /** A completed job is never granted again, and one put back not before it is available. */
  predicate MayFollow(x: Settlement, now: int) {
    !x.Complete? && (x.Retry? || x.Release? ==> When(x) <= now)
  }

  /**
   * Each settlement closes the grant right before it, by its holder; a lease is granted again only after it ran
   * out.
   */
  ghost predicate Lawful(h: seq<JobEvent>) {
    && (forall i | 0 <= i < |h| && h[i].Grant? :: h[i].now < h[i].until)
    && (forall i | 0 <= i < |h| && h[i].Accept? ::
          i > 0 && h[i - 1].Grant? && h[i - 1].holder == h[i].settlement.holder)
    && (forall i | 0 < i < |h| && h[i - 1].Grant? && h[i].Grant? :: h[i - 1].until <= h[i].now)
    && (forall i | 0 < i < |h| && h[i - 1].Accept? && h[i].Grant? :: MayFollow(h[i - 1].settlement, h[i].now))
  }

  /** What the lease columns of a row record about the job's history. */
  ghost predicate Records(r: Row<int>, h: seq<JobEvent>) {
    if h != [] && h[|h| - 1].Grant?
    then r.status == Pending && r.leaseOwner == h[|h| - 1].holder && r.leaseOwner != ""
      && r.leaseUntil == h[|h| - 1].until
    else
      && r.leaseOwner == ""
      && (r.status == Done <==> h != [] && h[|h| - 1].settlement.Complete?)
      && (r.status == Dead ==> h != [] && h[|h| - 1].settlement.Bury?)
      && (h != [] && (h[|h| - 1].settlement.Retry? || h[|h| - 1].settlement.Release?) ==>
          r.leaseUntil == When(h[|h| - 1].settlement))
  }

  ghost predicate RowSound(r: Row<int>) {
    && (r.leaseOwner != "" ==> r.status == Pending)
    && (r.status == Dead ==> r.deadReason.Some? && r.deadDetail.Some? && r.deadAt.Some?)
    && (r.status != Dead ==> r.deadReason.None? && r.deadDetail.None? && r.deadAt.None?)
    && 0 <= r.attempts <= MAX_INTEGER
  }

  // ---- one step ----

  /** A job's row and its history agree; a job without a row has no history. */
  ghost predicate Agrees(s: Store, id: string, h: seq<JobEvent>) {
    if id in s.jobs then Records(s.jobs[id], h) && RowSound(s.jobs[id]) else h == []
  }

  lemma LawfulGrant(h: seq<JobEvent>, holder: string, now: int, until: int)
    requires Lawful(h) && now < until
    requires h != [] && h[|h| - 1].Grant? ==> h[|h| - 1].until <= now
    requires h != [] && h[|h| - 1].Accept? ==> MayFollow(h[|h| - 1].settlement, now)
    ensures Lawful(h + [Grant(holder, now, until)])
  {
    hide MayFollow;
    var g := h + [Grant(holder, now, until)];
    assert forall i | 0 <= i < |h| :: g[i] == h[i];
  }

  lemma LawfulAccept(h: seq<JobEvent>, x: Settlement)
    requires Lawful(h) && OpenFor(h, x.holder)
    ensures Lawful(h + [Accept(x)])
  {
    hide MayFollow;
    var g := h + [Accept(x)];
    assert forall i | 0 <= i < |h| :: g[i] == h[i];
  }

  lemma ClaimKeepsRow(step: Step, id: string, h: seq<JobEvent>)
    requires Performs(step) && step.action.ClaimJobs? && Lawful(h) && Agrees(step.before, id, h)
    ensures Lawful(h + EventsOf(step, id)) && Agrees(step.after, id, h + EventsOf(step, id))
  {
    if Grants(step, id) {
      LawfulGrant(h, step.action.holder, step.action.now, step.action.until);
    } else {
      assert h + [] == h;
    }
  }

  lemma AcceptedRow(r: Row<int>, x: Settlement, h: seq<JobEvent>)
    requires Records(r, h) && RowSound(r) && Holds(r, x.holder)
    requires CheckSettlement(x).None? && !(x.Complete? && r.attempts + 1 > MAX_INTEGER)
    ensures OpenFor(h, x.holder)
    ensures Records(Settled(r, x, When(x)), h + [Accept(x)]) && RowSound(Settled(r, x, When(x)))
  {
  }

  lemma SettleKeepsRow(step: Step, id: string, h: seq<JobEvent>)
    requires Performs(step) && step.action.SettleJob? && Lawful(h) && Agrees(step.before, id, h)
    ensures Lawful(h + EventsOf(step, id)) && Agrees(step.after, id, h + EventsOf(step, id))
  {
    hide Lawful, Records, RowSound, CheckSettlement, Settled, ValidText, ValidInteger;
    var x := step.action.settlement;
    if x.jobId == id && AcceptsNow(step.before, x) {
      AcceptedRow(step.before.jobs[id], x, h);
      LawfulAccept(h, x);
    } else {
      assert h + [] == h;
    }
  }

  lemma EnqueueKeepsRow(step: Step, id: string, h: seq<JobEvent>)
    requires Performs(step) && step.action.EnqueueJob? && Agrees(step.before, id, h)
    ensures Agrees(step.after, id, h)
  {
  }

  lemma ReplayKeepsRow(step: Step, id: string, h: seq<JobEvent>)
    requires Performs(step) && step.action.ReplayJob? && Agrees(step.before, id, h)
    ensures Agrees(step.after, id, h)
  {
  }

  lemma StepKeepsRow(step: Step, id: string, h: seq<JobEvent>)
    requires Performs(step) && Lawful(h) && Agrees(step.before, id, h)
    ensures Lawful(h + EventsOf(step, id)) && Agrees(step.after, id, h + EventsOf(step, id))
  {
    hide Lawful, Agrees, Performs;
    match step.action {
      case ClaimJobs(_, _, _, _) => ClaimKeepsRow(step, id, h);
      case SettleJob(_) => SettleKeepsRow(step, id, h);
      case EnqueueJob(_, _) => EnqueueKeepsRow(step, id, h);
      case ReplayJob(_, _) => ReplayKeepsRow(step, id, h);
    }
    assert h + [] == h;
  }

  lemma {:induction false} EveryJobIsLawful(run: seq<Step>, id: string)
    requires IsRun(run)
    ensures Lawful(History(run, id))
    ensures Agrees(Final(run), id, History(run, id))
  {
    if run != [] {
      EveryJobIsLawful(run[..|run| - 1], id);
      StepKeepsRow(run[|run| - 1], id, History(run[..|run| - 1], id));
    }
  }

  // ---- leases and fencing ----

  lemma {:induction false} GrantsInOrder(h: seq<JobEvent>, i: nat, j: nat)
    requires Lawful(h) && i < j < |h|
    requires forall k | i <= k <= j :: h[k].Grant?
    ensures h[i].until <= h[j].now
    decreases j - i
  {
    if i + 1 < j {
      GrantsInOrder(h, i, j - 1);
    }
  }

  /**
   * Mutual exclusion. In every run, two grants of one job with no accepted settlement between
   * them cover disjoint intervals [now, until), however far apart the workers' clocks are.
   */
  lemma GrantsAreDisjoint(run: seq<Step>, id: string, i: nat, j: nat, t: int)
    requires IsRun(run) && i < j < |History(run, id)|
    requires History(run, id)[i].Grant? && History(run, id)[j].Grant?
    requires forall k | i < k < j :: !History(run, id)[k].Accept?
    ensures var h := History(run, id);
            !(h[i].now <= t < h[i].until && h[j].now <= t < h[j].until)
  {
    EveryJobIsLawful(run, id);
    GrantsInOrder(History(run, id), i, j);
  }

  /**
   * Fencing, both ways. After any run, a well-formed settlement is accepted if and only if its
   * holder has the job's latest grant, still unsettled (and the attempts column does not overflow).
   */
  lemma AcceptedExactlyForOpenGrant(run: seq<Step>, x: Settlement)
    requires IsRun(run) && CheckSettlement(x).None?
    ensures AcceptsNow(Final(run), x) <==> OpenFor(History(run, x.jobId), x.holder) && !Overflows(Final(run), x)
  {
    EveryJobIsLawful(run, x.jobId);
  }

  /** Every accepted settlement has a grant of its own: the event right before it, by the same holder. */
  lemma EachGrantSettledOnce(run: seq<Step>, id: string, i: nat, j: nat)
    requires IsRun(run) && i < j < |History(run, id)|
    requires History(run, id)[i].Accept? && History(run, id)[j].Accept?
    ensures i > 0 && i < j - 1
    ensures var h := History(run, id);
            && h[i - 1].Grant? && h[i - 1].holder == h[i].settlement.holder
            && h[j - 1].Grant? && h[j - 1].holder == h[j].settlement.holder
  {
    EveryJobIsLawful(run, id);
  }

  lemma AfterAccept(h: seq<JobEvent>, i: nat)
    requires Lawful(h) && i + 1 < |h| && h[i].Accept?
    ensures h[i + 1].Grant? && MayFollow(h[i].settlement, h[i + 1].now)
  {
  }

  /** A job completes at most once: an accepted completion is the last thing that ever happens to it. */
  lemma CompletionIsFinal(run: seq<Step>, id: string, i: nat)
    requires IsRun(run) && i < |History(run, id)|
    requires History(run, id)[i].Accept? && History(run, id)[i].settlement.Complete?
    ensures i == |History(run, id)| - 1 && id in Final(run).jobs && Final(run).jobs[id].status == Done
  {
    EveryJobIsLawful(run, id);
    if i + 1 < |History(run, id)| {
      AfterAccept(History(run, id), i);
    }
  }

  /** A job that was put back is granted next, and not before the time it was put back for. */
  lemma RetryWaits(run: seq<Step>, id: string, i: nat)
    requires IsRun(run) && i + 1 < |History(run, id)| && History(run, id)[i].Accept?
    requires History(run, id)[i].settlement.Retry? || History(run, id)[i].settlement.Release?
    ensures History(run, id)[i + 1].Grant? && When(History(run, id)[i].settlement) <= History(run, id)[i + 1].now
  {
    EveryJobIsLawful(run, id);
    AfterAccept(History(run, id), i);
  }

  // ---- rows ----

  /** In every reachable table a lease owner implies pending, and dead rows are exactly the fully described ones. */
  lemma EveryRowIsSound(run: seq<Step>, id: string)
    requires IsRun(run) && id in Final(run).jobs
    ensures var r := Final(run).jobs[id];
            && (r.leaseOwner != "" ==> r.status == Pending)
            && (r.status == Dead <==> r.deadReason.Some? && r.deadDetail.Some? && r.deadAt.Some?)
  {
    EveryJobIsLawful(run, id);
  }

  lemma {:induction false} RunPrefix(run: seq<Step>, k: nat)
    requires IsRun(run) && k <= |run|
    ensures IsRun(run[..k])
    decreases |run|
  {
    if k < |run| {
      RunPrefix(run[..|run| - 1], k);
      assert run[..|run| - 1][..k] == run[..k];
    } else {
      assert run[..k] == run;
    }
  }

  /** Rows are never deleted, keep what they were enqueued with, and a done row never changes again. */
  ghost predicate Persists(before: Store, after: Store) {
    && (forall id | id in before.jobs :: id in after.jobs)
    && (forall id | id in before.jobs :: after.jobs[id].dedupeKey == before.jobs[id].dedupeKey)
    && (forall id | id in before.jobs && before.jobs[id].status == Done :: after.jobs[id] == before.jobs[id])
    && (forall key | key in before.completed :: key in after.completed && after.completed[key] == before.completed[key])
  }

  lemma StepPersists(step: Step)
    requires Performs(step)
    ensures Persists(step.before, step.after)
  {
  }

  lemma {:induction false} RunPersists(run: seq<Step>, k: nat)
    requires IsRun(run) && k <= |run|
    ensures Persists(Final(run[..k]), Final(run))
    decreases |run|
  {
    if k == |run| {
      assert run[..k] == run;
    } else {
      RunPersists(run[..|run| - 1], k);
      assert run[..|run| - 1][..k] == run[..k];
      StepPersists(run[|run| - 1]);
    }
  }

  // ---- completed keys ----

  predicate Completes(step: Step, key: string) {
    step.action.SettleJob? && step.action.settlement.Complete? && step.action.settlement.idempotencyKey == key
    && AcceptsNow(step.before, step.action.settlement)
  }

  lemma StepCompletes(step: Step, key: string)
    requires Performs(step)
    ensures key in step.after.completed <==> key in step.before.completed || Completes(step, key)
  {
  }

  /** A key is recorded as completed exactly when some accepted completion carried it. */
  lemma {:induction false} CompletedExactlyWhenAccepted(run: seq<Step>, key: string)
    requires IsRun(run)
    ensures key in Final(run).completed <==> exists step | step in run :: Completes(step, key)
  {
    if run != [] {
      var init, last := run[..|run| - 1], run[|run| - 1];
      CompletedExactlyWhenAccepted(init, key);
      StepCompletes(last, key);
      assert forall step :: step in run <==> step in init || step == last by {
        assert run == init + [last];
      }
    }
  }

  // ---- dedupe keys ----

  ghost predicate OneRowPerKey(s: Store) {
    forall a, b | a in s.jobs && b in s.jobs
                  && s.jobs[a].dedupeKey.Some? && s.jobs[a].dedupeKey == s.jobs[b].dedupeKey :: a == b
  }

  /** There is never more than one row per dedupe key. */
  lemma {:induction false} KeysAreUnique(run: seq<Step>)
    requires IsRun(run)
    ensures OneRowPerKey(Final(run))
  {
    if run != [] {
      KeysAreUnique(run[..|run| - 1]);
    }
  }

  predicate Returns(step: Step, key: string, id: string) {
    step.action.EnqueueJob? && step.action.job.dedupeKey == Some(key)
    && step.action.result.Success? && step.action.result.value.jobId == id
  }

  lemma EnqueueLeavesRow(step: Step, key: string, id: string)
    requires Performs(step) && Returns(step, key, id)
    ensures id in step.after.jobs && step.after.jobs[id].dedupeKey == Some(key)
  {
  }

  lemma StepOf(run: seq<Step>, k: nat)
    requires IsRun(run) && k < |run|
    ensures Performs(run[k]) && run[k].before == Final(run[..k]) && run[k].after == Final(run[..k + 1])
  {
    RunPrefix(run, k + 1);
    assert run[..k + 1][..k] == run[..k];
  }

  /** All enqueues with one key return one id, whatever claims, settlements and replays happen between. */
  lemma SameKeySameJob(run: seq<Step>, i: nat, j: nat, key: string, a: string, b: string)
    requires IsRun(run) && i < |run| && j < |run| && Returns(run[i], key, a) && Returns(run[j], key, b)
    ensures a == b
  {
    StepOf(run, i);
    StepOf(run, j);
    EnqueueLeavesRow(run[i], key, a);
    EnqueueLeavesRow(run[j], key, b);
    RunPersists(run, i + 1);
    RunPersists(run, j + 1);
    KeysAreUnique(run);
  }

  /** A duplicate enqueue changes no row, and only the first enqueue of a key inserts one. */
  lemma DuplicateChangesNothing(run: seq<Step>, i: nat, j: nat, key: string, a: string, b: string)
    requires IsRun(run) && i < j < |run| && Returns(run[i], key, a) && Returns(run[j], key, b)
    ensures run[j].action.result == Success(Duplicate(a)) && run[j].after == run[j].before
  {
    SameKeySameJob(run, i, j, key, a, b);
    StepOf(run, i);
    StepOf(run, j);
    EnqueueLeavesRow(run[i], key, a);
    RunPrefix(run, j);
    RunPersists(run[..j], i + 1);
    assert run[..j][..i + 1] == run[..i + 1];
    assert KeyTaken(run[j].before.jobs, Some(key));
  }
}
