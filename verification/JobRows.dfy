/**
 * What a row of the job table says, column by column, in terms of everything that has happened to its
 * job; and which statements take effect, in the same terms.
 */
module JobRows {
  import opened Wrappers
  import opened Jobs
  import opened JobRuns

  /** What can happen to a job: inserted, leased, settled while leased, and put back after it was dead. */
  datatype Change =
    | Added(job: Job)
    | Taken(holder: string, until: int)
    | Closed(settlement: Settlement)
    | Revived(availableAt: int)

  /** A dead job that is put back. */
  predicate Revives(step: Step, id: string) {
    step.action.ReplayJob? && step.action.jobId == id
    && Replay(step.before, id, step.action.availableAt).0 == Success(true)
  }

  predicate Inserts(step: Step, id: string) {
    step.action.EnqueueJob? && step.action.result == Success(Inserted(id))
  }

  function ChangesOf(step: Step, id: string): seq<Change> {
    match step.action
    case EnqueueJob(job, _) => if Inserts(step, id) then [Added(job)] else []
    case ClaimJobs(_, holder, _, until) => if Grants(step, id) then [Taken(holder, until)] else []
    case SettleJob(x) => if x.jobId == id && AcceptsNow(step.before, x) then [Closed(x)] else []
    case ReplayJob(_, at) => if Revives(step, id) then [Revived(at)] else []
  }

  /** Everything that has happened to a job, oldest first. */
  function Log(run: seq<Step>, id: string): seq<Change>
  {
    if run == [] then [] else Log(run[..|run| - 1], id) + ChangesOf(run[|run| - 1], id)
  }

  // ---- the columns ----

  /** A lease and a release leave the attempts alone, a completion adds one, the rest set them. */
  function Attempts(log: seq<Change>): int
  {
    if log == [] then 0
    else
      var earlier := log[..|log| - 1];
      match log[|log| - 1]
      case Closed(Complete(_, _, _, _)) => Attempts(earlier) + 1
      case Closed(Retry(_, _, attempts, _, _)) => attempts
      case Closed(Bury(_, _, attempts, _, _, _)) => attempts
      case Closed(Release(_, _, _)) => Attempts(earlier)
      case Taken(_, _) => Attempts(earlier)
      case Added(_) => 0
      case Revived(_) => 0
  }

  /** The detail of the last failure, unless the job was completed or put back since. */
  function LastError(log: seq<Change>): Option<string>
  {
    if log == [] then None
    else
      var earlier := log[..|log| - 1];
      match log[|log| - 1]
      case Closed(Retry(_, _, _, _, detail)) => Some(detail)
      case Closed(Bury(_, _, _, _, detail, _)) => Some(detail)
      case Closed(Release(_, _, _)) => LastError(earlier)
      case Taken(_, _) => LastError(earlier)
      case _ => None
  }

  predicate IsCompleted(log: seq<Change>) {
    log != [] && log[|log| - 1].Closed? && log[|log| - 1].settlement.Complete?
  }

  predicate IsBuried(log: seq<Change>) {
    log != [] && log[|log| - 1].Closed? && log[|log| - 1].settlement.Bury?
  }

  /** Whoever leased the job, until it is settled. */
  function Holder(log: seq<Change>): string {
    if log != [] && log[|log| - 1].Taken? then log[|log| - 1].holder else ""
  }

  /** From when on the job may be leased, if it may be at all. */
  function Available(log: seq<Change>): int
    requires log != []
  {
    match log[|log| - 1]
    case Added(job) => job.availableAt
    case Taken(_, until) => until
    case Closed(Complete(_, _, _, at)) => at
    case Closed(Retry(_, _, _, at, _)) => at
    case Closed(Bury(_, _, _, _, _, at)) => at
    case Closed(Release(_, _, at)) => at
    case Revived(at) => at
  }

  /** The columns that stay as the job was enqueued. */
  ghost predicate Describes(id: string, log: seq<Change>, r: Row<int>) {
    && log != [] && log[0].Added?
    && var job := log[0].job;
       job.id == id && r.name == job.name && r.payload == job.payload && r.enqueuedAt == job.enqueuedAt
       && r.dedupeKey == job.dedupeKey
  }

  /** The columns that change. */
  ghost predicate Tells(log: seq<Change>, r: Row<int>)
    requires log != []
  {
    && r.attempts == Attempts(log) && r.lastError == LastError(log)
    && r.leaseOwner == Holder(log) && r.leaseUntil == Available(log)
    && (r.status == Done <==> IsCompleted(log)) && (r.status == Dead <==> IsBuried(log))
    && if IsBuried(log) then
         var x := log[|log| - 1].settlement;
         r.deadReason == Some(x.reason) && r.deadDetail == Some(x.detail) && r.deadAt == Some(x.deadAt)
       else r.deadReason.None? && r.deadDetail.None? && r.deadAt.None?
  }

  ghost predicate Logged(s: Store, id: string, log: seq<Change>) {
    if id in s.jobs then Describes(id, log, s.jobs[id]) && Tells(log, s.jobs[id]) else log == []
  }

  lemma Extended(log: seq<Change>, c: Change)
    ensures (log + [c])[..|log + [c]| - 1] == log && (log + [c])[|log + [c]| - 1] == c
    ensures log != [] ==> (log + [c])[0] == log[0]
  {
  }

  lemma AddedRow(j: Job)
    ensures Describes(j.id, [Added(j)], Fresh(j, j.enqueuedAt, j.availableAt))
    ensures Tells([Added(j)], Fresh(j, j.enqueuedAt, j.availableAt))
  {
  }

  lemma TakenRow(id: string, log: seq<Change>, r: Row<int>, holder: string, until: int)
    requires Describes(id, log, r) && Tells(log, r) && r.status == Pending
    ensures Describes(id, log + [Taken(holder, until)], Leased(r, holder, until))
    ensures Tells(log + [Taken(holder, until)], Leased(r, holder, until))
  {
    Extended(log, Taken(holder, until));
  }

  lemma ClosedRow(id: string, log: seq<Change>, r: Row<int>, x: Settlement)
    requires Describes(id, log, r) && Tells(log, r) && r.status == Pending
    ensures Describes(id, log + [Closed(x)], Settled(r, x, When(x)))
    ensures Tells(log + [Closed(x)], Settled(r, x, When(x)))
  {
    Extended(log, Closed(x));
  }

  lemma RevivedRow(id: string, log: seq<Change>, r: Row<int>, at: int)
    requires Describes(id, log, r)
    ensures Describes(id, log + [Revived(at)], Replayed(r, at))
    ensures Tells(log + [Revived(at)], Replayed(r, at))
  {
    Extended(log, Revived(at));
  }

  lemma EnqueueKeepsLog(step: Step, id: string, log: seq<Change>)
    requires Performs(step) && step.action.EnqueueJob? && Logged(step.before, id, log)
    ensures Logged(step.after, id, log + ChangesOf(step, id))
  {
    hide CheckJob, KeyTaken, Describes, Tells;
    var j := step.action.job;
    if Inserts(step, id) {
      AddedRow(j);
      assert log + [Added(j)] == [Added(j)];
    } else {
      assert log + [] == log;
    }
  }

  lemma ClaimKeepsLog(step: Step, id: string, log: seq<Change>)
    requires Performs(step) && step.action.ClaimJobs? && Logged(step.before, id, log)
    ensures Logged(step.after, id, log + ChangesOf(step, id))
  {
    hide CheckClaim, Describes, Tells;
    if Grants(step, id) {
      TakenRow(id, log, step.before.jobs[id], step.action.holder, step.action.until);
    } else {
      assert log + [] == log;
    }
  }

  lemma SettleKeepsLog(step: Step, id: string, log: seq<Change>)
    requires Performs(step) && step.action.SettleJob? && Logged(step.before, id, log)
    ensures Logged(step.after, id, log + ChangesOf(step, id))
  {
    hide CheckSettlement, Describes, Tells, Settled;
    var x := step.action.settlement;
    if x.jobId == id && AcceptsNow(step.before, x) {
      ClosedRow(id, log, step.before.jobs[id], x);
    } else {
      assert log + [] == log;
    }
  }

  lemma ReplayKeepsLog(step: Step, id: string, log: seq<Change>)
    requires Performs(step) && step.action.ReplayJob? && Logged(step.before, id, log)
    ensures Logged(step.after, id, log + ChangesOf(step, id))
  {
    hide CheckReplay, Describes, Tells, Replayed;
    if Revives(step, id) {
      RevivedRow(id, log, step.before.jobs[id], step.action.availableAt);
    } else {
      assert log + [] == log;
    }
  }

  lemma StepKeepsLog(step: Step, id: string, log: seq<Change>)
    requires Performs(step) && Logged(step.before, id, log)
    ensures Logged(step.after, id, log + ChangesOf(step, id))
  {
    hide Performs, Logged, ChangesOf;
    match step.action {
      case ClaimJobs(_, _, _, _) => ClaimKeepsLog(step, id, log);
      case SettleJob(_) => SettleKeepsLog(step, id, log);
      case EnqueueJob(_, _) => EnqueueKeepsLog(step, id, log);
      case ReplayJob(_, _) => ReplayKeepsLog(step, id, log);
    }
  }

  /**
   * In every reachable table, a job has a row exactly when it was added, and every column of it is what the
   * job's log says.
   */
  lemma {:induction false} EveryRowIsItsLog(run: seq<Step>, id: string)
    requires IsRun(run)
    ensures Logged(Final(run), id, Log(run, id))
  {
    if run != [] {
      EveryRowIsItsLog(run[..|run| - 1], id);
      StepKeepsLog(run[|run| - 1], id, Log(run[..|run| - 1], id));
    }
  }

  // ---- what takes effect ----

  /** The job is there, neither completed nor dead, and whatever lease or delay it had is over. */
  predicate MayBeTaken(log: seq<Change>, now: int) {
    log != [] && !IsCompleted(log) && !IsBuried(log) && Available(log) <= now
  }

  lemma ClaimableWhen(run: seq<Step>, id: string, now: int)
    requires IsRun(run)
    ensures id in Final(run).jobs && Claimable(Final(run).jobs[id], now) <==> MayBeTaken(Log(run, id), now)
  {
    EveryRowIsItsLog(run, id);
  }

  /** A claim that is not refused grants exactly those of the jobs it asks for that may be taken. */
  lemma GrantsExactly(run: seq<Step>, step: Step, id: string)
    requires IsRun(run) && step.before == Final(run) && step.action.ClaimJobs?
    ensures Grants(step, id)
            <==> && CheckClaim(step.action.ids, step.action.holder, step.action.now, step.action.until).None?
                 && id in step.action.ids && MayBeTaken(Log(run, id), step.action.now)
  {
    ClaimableWhen(run, id, step.action.now);
  }

  lemma HeldWhen(run: seq<Step>, id: string, holder: string)
    requires IsRun(run)
    ensures var jobs, log := Final(run).jobs, Log(run, id);
            && (id in jobs <==> log != [])
            && (id in jobs ==>
                && jobs[id].attempts == Attempts(log)
                && (Holds(jobs[id], holder)
                    <==> log[|log| - 1].Taken? && log[|log| - 1].holder == holder && holder != ""))
  {
    hide Attempts;
    EveryRowIsItsLog(run, id);
  }

  lemma CheckedHolder(x: Settlement)
    requires CheckSettlement(x).None?
    ensures x.holder != ""
  {
  }

  /** What a settlement that is not refused reports. */
  lemma SettlementOutcome(run: seq<Step>, x: Settlement)
    requires IsRun(run) && CheckSettlement(x).None?
    ensures var log := Log(run, x.jobId);
            Settle(Final(run), x).0 ==
            if log == [] || !log[|log| - 1].Taken? || log[|log| - 1].holder != x.holder then Success(false)
            else if x.Complete? && Attempts(log) >= MAX_INTEGER then Failure(ConstraintFailed)
            else Success(true)
  {
    hide CheckSettlement, Holds, Attempts, Settled, IsRun;
    HeldWhen(run, x.jobId, x.holder);
    CheckedHolder(x);
  }

  /** Exactly a dead job is put back. */
  lemma ReplayOutcome(run: seq<Step>, id: string, at: int)
    requires IsRun(run) && CheckReplay(id, at).None?
    ensures Replay(Final(run), id, at).0 == Success(IsBuried(Log(run, id)))
  {
    EveryRowIsItsLog(run, id);
  }

  /** The job that was added with a key, if one was. */
  ghost predicate AddedWith(run: seq<Step>, key: string, id: string) {
    var log := Log(run, id);
    log != [] && log[0].Added? && log[0].job.dedupeKey == Some(key)
  }

  lemma HasKey(run: seq<Step>, key: string, id: string)
    requires IsRun(run)
    ensures AddedWith(run, key, id) <==> id in Final(run).jobs && Final(run).jobs[id].dedupeKey == Some(key)
  {
    EveryRowIsItsLog(run, id);
  }

  lemma KeyTakenWhen(run: seq<Step>, key: string)
    requires IsRun(run)
    ensures KeyTaken(Final(run).jobs, Some(key)) <==> exists id :: AddedWith(run, key, id)
  {
    hide AddedWith;
    forall id
      ensures AddedWith(run, key, id) <==> id in Final(run).jobs && Final(run).jobs[id].dedupeKey == Some(key)
    {
      HasKey(run, key, id);
    }
  }

  lemma NoKeyTaken(jobs: map<string, Row<int>>)
    ensures !KeyTaken(jobs, None)
  {
  }

  /**
   * What an enqueue reports: the job that was added with its key, or else that its id is in use, or else
   * that it was inserted.
   */
  lemma EnqueueOutcome(run: seq<Step>, step: Step)
    requires IsRun(run) && step.before == Final(run) && Performs(step) && step.action.EnqueueJob?
    requires CheckJob(step.action.job).None?
    ensures var j, r := step.action.job, step.action.result;
            if j.dedupeKey.Some? && exists id :: AddedWith(run, j.dedupeKey.value, id)
            then r.Success? && r.value.Duplicate? && AddedWith(run, j.dedupeKey.value, r.value.jobId)
            else if Log(run, j.id) != [] then r == Failure(ConstraintFailed)
            else r == Success(Inserted(j.id))
  {
    hide CheckJob, AddedWith, KeyTaken;
    var j, r := step.action.job, step.action.result;
    EveryRowIsItsLog(run, j.id);
    if j.dedupeKey.Some? {
      KeyTakenWhen(run, j.dedupeKey.value);
      if KeyTaken(Final(run).jobs, j.dedupeKey) {
        HasKey(run, j.dedupeKey.value, r.value.jobId);
      }
    } else {
      NoKeyTaken(Final(run).jobs);
    }
  }

  /** A completed key keeps the time of the first completion that carried it. */
  ghost predicate FirstCompletedAt(run: seq<Step>, key: string, at: int) {
    exists i :: 0 <= i < |run| && Completes(run[i], key) && run[i].action.settlement.completedAt == at
                && forall j | 0 <= j < i :: !Completes(run[j], key)
  }

  lemma CompletionStep(step: Step, key: string)
    requires Performs(step)
    ensures key in step.after.completed ==>
              if key in step.before.completed then step.after.completed[key] == step.before.completed[key]
              else Completes(step, key) && step.after.completed[key] == step.action.settlement.completedAt
  {
    hide CheckSettlement, CheckJob, CheckClaim, CheckReplay, Settled;
  }

  lemma {:induction false} CompletedAtFirst(run: seq<Step>, key: string)
    requires IsRun(run) && key in Final(run).completed
    ensures FirstCompletedAt(run, key, Final(run).completed[key])
  {
    var n := |run| - 1;
    var earlier := run[..n];
    CompletionStep(run[n], key);
    if key in Final(earlier).completed {
      CompletedAtFirst(earlier, key);
      var at := Final(earlier).completed[key];
      var i :| 0 <= i < |earlier| && Completes(earlier[i], key) && earlier[i].action.settlement.completedAt == at
               && forall j | 0 <= j < i :: !Completes(earlier[j], key);
      assert Completes(run[i], key) && forall j | 0 <= j < i :: run[j] == earlier[j];
    } else {
      CompletedExactlyWhenAccepted(earlier, key);
      assert forall j | 0 <= j < n :: run[j] in earlier;
      assert Completes(run[n], key);
    }
  }

  // ---- what is refused ----

  /** Text a store takes: it has something in it unless it may be empty, and no NUL. */
  ghost predicate Storable(text: string, empty: bool) {
    (text == "" ==> empty) && forall i | 0 <= i < |text| :: text[i] != '\0'
  }

  /** From the beginning of year 1 to the end of year 9999, in milliseconds. */
  ghost predicate InYears(t: int) {
    -62_135_596_800_000 <= t < 253_402_300_800_000
  }

  lemma ChecksMean(text: string, empty: bool, t: int, n: int)
    ensures ValidText(text, empty) <==> Storable(text, empty)
    ensures Calendar.InRange(t) <==> InYears(t)
    ensures ValidInteger(n, 0) <==> 0 <= n < 0x8000_0000
  {
  }

  /** Exactly when an enqueue is refused, and how. */
  lemma EnqueueRefusedWhen(j: Job)
    ensures CheckJob(j) ==
            if !(&& Storable(j.id, false) && Storable(j.name, false) && Storable(j.payload, true)
                 && (j.dedupeKey.Some? ==> Storable(j.dedupeKey.value, false))) then Some(InvalidText)
            else if !(InYears(j.enqueuedAt) && InYears(j.availableAt)) then Some(InvalidTime)
            else None
  {
    hide ValidText, ValidInteger, Storable, InYears;
    ChecksMean(j.id, false, j.enqueuedAt, 0);
    ChecksMean(j.name, false, j.availableAt, 0);
    ChecksMean(j.payload, true, 0, 0);
    if j.dedupeKey.Some? {
      ChecksMean(j.dedupeKey.value, false, 0, 0);
    }
  }

  lemma ClaimRefusedWhen(ids: seq<string>, holder: string, now: int, until: int)
    ensures CheckClaim(ids, holder, now, until) ==
            if !Storable(holder, false) then Some(InvalidText)
            else if !InYears(now) || !InYears(until) then Some(InvalidTime)
            else if until <= now then Some(LeaseNotLater)
            else if exists id | id in ids :: !Storable(id, false) then Some(InvalidText)
            else None
  {
    hide ValidText, ValidInteger, Storable, InYears;
    ChecksMean(holder, false, now, 0);
    ChecksMean(holder, false, until, 0);
    forall id | id in ids
      ensures ValidText(id, false) <==> Storable(id, false)
    {
      ChecksMean(id, false, 0, 0);
    }
  }

  /** The number of attempts a settlement carries, the text, and the time. */
  function Carried(x: Settlement): (int, (string, bool), int) {
    match x
    case Complete(_, _, key, at) => (0, (key, false), at)
    case Retry(_, _, attempts, at, detail) => (attempts, (detail, true), at)
    case Bury(_, _, attempts, _, detail, at) => (attempts, (detail, true), at)
    case Release(_, _, at) => (0, ("", true), at)
  }

  lemma EmptyIsStorable()
    ensures Storable("", true)
  {
  }

  lemma SettlementRefusedWhen(x: Settlement)
    ensures var (attempts, (text, empty), at) := Carried(x);
            CheckSettlement(x) ==
            if !Storable(x.jobId, false) || !Storable(x.holder, false) then Some(InvalidText)
            else if !(0 <= attempts < 0x8000_0000) then Some(InvalidInteger)
            else if !Storable(text, empty) then Some(InvalidText)
            else if !InYears(at) then Some(InvalidTime)
            else None
  {
    hide ValidText, ValidInteger, Storable, InYears;
    var (attempts, (text, empty), at) := Carried(x);
    ChecksMean(x.jobId, false, at, attempts);
    ChecksMean(x.holder, false, at, attempts);
    ChecksMean(text, empty, at, attempts);
    EmptyIsStorable();
  }

  lemma ReplayRefusedWhen(id: string, at: int)
    ensures CheckReplay(id, at) ==
            if !Storable(id, false) then Some(InvalidText) else if !InYears(at) then Some(InvalidTime) else None
  {
    ChecksMean(id, false, at, 0);
  }

  /** Everything a row holds can be stored: texts, times and the number of attempts. */
  ghost predicate RowStorable(r: Row<int>) {
    && Storable(r.name, false) && Storable(r.payload, true) && Storable(r.leaseOwner, true)
    && (r.dedupeKey.Some? ==> Storable(r.dedupeKey.value, false))
    && (r.lastError.Some? ==> Storable(r.lastError.value, true))
    && (r.deadDetail.Some? ==> Storable(r.deadDetail.value, true))
    && InYears(r.enqueuedAt) && InYears(r.leaseUntil) && (r.deadAt.Some? ==> InYears(r.deadAt.value))
    && 0 <= r.attempts < 0x8000_0000
  }

  ghost predicate AllStorable(s: Store) {
    forall id | id in s.jobs :: Storable(id, false) && RowStorable(s.jobs[id])
  }

  lemma SettledStorable(r: Row<int>, x: Settlement)
    requires RowStorable(r) && CheckSettlement(x).None? && !(x.Complete? && r.attempts + 1 > MAX_INTEGER)
    ensures RowStorable(Settled(r, x, When(x)))
  {
    SettlementRefusedWhen(x);
    EmptyIsStorable();
    hide Storable, InYears, CheckSettlement;
  }

  lemma LeasedStorable(r: Row<int>, ids: seq<string>, holder: string, now: int, until: int)
    requires RowStorable(r) && CheckClaim(ids, holder, now, until).None?
    ensures RowStorable(Leased(r, holder, until))
  {
    ClaimRefusedWhen(ids, holder, now, until);
    hide CheckClaim;
  }

  lemma FreshStorable(j: Job)
    requires CheckJob(j).None?
    ensures Storable(j.id, false) && RowStorable(Fresh(j, j.enqueuedAt, j.availableAt))
  {
    EnqueueRefusedWhen(j);
    hide CheckJob;
  }

  lemma ReplayedStorable(r: Row<int>, id: string, at: int)
    requires RowStorable(r) && CheckReplay(id, at).None?
    ensures RowStorable(Replayed(r, at))
  {
    ReplayRefusedWhen(id, at);
    hide CheckReplay;
  }

  lemma StepKeepsStorable(step: Step, id: string)
    requires Performs(step) && AllStorable(step.before) && id in step.after.jobs
    ensures Storable(id, false) && RowStorable(step.after.jobs[id])
  {
    hide CheckJob, CheckClaim, CheckSettlement, CheckReplay, KeyTaken, RowStorable, Storable;
    hide Settled, Leased, Fresh, Replayed;
    match step.action {
      case EnqueueJob(job, _) =>
        if CheckJob(job).None? {
          FreshStorable(job);
        }
      case ClaimJobs(ids, holder, now, until) =>
        if CheckClaim(ids, holder, now, until).None? {
          LeasedStorable(step.before.jobs[id], ids, holder, now, until);
        }
      case SettleJob(x) =>
        if x.jobId == id && AcceptsNow(step.before, x) {
          SettledStorable(step.before.jobs[id], x);
        }
      case ReplayJob(other, at) =>
        if other == id && CheckReplay(id, at).None? {
          ReplayedStorable(step.before.jobs[id], id, at);
        }
    }
  }

  /** No reachable table holds what could not be stored. */
  lemma {:induction false} EveryRowIsStorable(run: seq<Step>)
    requires IsRun(run)
    ensures AllStorable(Final(run))
  {
    hide Storable, RowStorable, Performs;
    if run != [] {
      EveryRowIsStorable(run[..|run| - 1]);
      forall id | id in Final(run).jobs
        ensures Storable(id, false) && RowStorable(Final(run).jobs[id])
      {
        StepKeepsStorable(run[|run| - 1], id);
      }
    }
  }
}
