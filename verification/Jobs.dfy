/**
 * The job table as a value, and what each statement of the stores does to it. Times are
 * milliseconds, as the PostgreSQL store keeps them; every statement acts on a whole set of rows.
 */
module Jobs {
  import opened Wrappers
  import opened Texts
  import opened Calendar

  const MAX_INTEGER: int := 2_147_483_647

  datatype Status = Pending | Done | Dead

  datatype Reason = InvalidPayload | UnknownName | AttemptsExhausted

  /** One row, over the representation T of points in time. */
  datatype Row<T> = Row(
    name: string,
    payload: string,
    status: Status,
    attempts: int,
    enqueuedAt: T,
    dedupeKey: Option<string>,
    leaseOwner: string,
    leaseUntil: T,
    lastError: Option<string>,
    deadReason: Option<Reason>,
    deadDetail: Option<string>,
    deadAt: Option<T>)

  /** The job table and the table of completed idempotency keys. */
  datatype Store = Store(jobs: map<string, Row<int>>, completed: map<string, int>)

  datatype Job =
    Job(id: string, name: string, payload: string, enqueuedAt: int, availableAt: int, dedupeKey: Option<string>)

  datatype Enqueued = Inserted(jobId: string) | Duplicate(jobId: string)

  datatype Settlement =
    | Complete(jobId: string, holder: string, idempotencyKey: string, completedAt: int)
    | Retry(jobId: string, holder: string, attempts: int, availableAt: int, detail: string)
    | Bury(jobId: string, holder: string, attempts: int, reason: Reason, detail: string, deadAt: int)
    | Release(jobId: string, holder: string, availableAt: int)

  datatype Refusal = InvalidText | InvalidInteger | InvalidTime | LeaseNotLater | ConstraintFailed | StoreClosed

  // ---- argument checks ----

  /** Text without NUL. Dafny strings hold whole characters, so they are well formed already. */
  predicate ValidText(s: string, empty: bool) {
    (empty || s != "") && '\0' !in s
  }

  predicate ValidInteger(n: int, minimum: int) {
    minimum <= n <= MAX_INTEGER
  }

  function CheckJob(j: Job): Option<Refusal> {
    if !ValidText(j.id, false) || !ValidText(j.name, false) || !ValidText(j.payload, true) then Some(InvalidText)
    else if j.dedupeKey.Some? && !ValidText(j.dedupeKey.value, false) then Some(InvalidText)
    else if !InRange(j.enqueuedAt) || !InRange(j.availableAt) then Some(InvalidTime)
    else None
  }

  function CheckClaim(ids: seq<string>, holder: string, now: int, leaseUntil: int): Option<Refusal> {
    if !ValidText(holder, false) then Some(InvalidText)
    else if !InRange(now) || !InRange(leaseUntil) then Some(InvalidTime)
    else if leaseUntil <= now then Some(LeaseNotLater)
    else if exists id | id in ids :: !ValidText(id, false) then Some(InvalidText)
    else None
  }

  function CheckSettlement(x: Settlement): Option<Refusal> {
    if !ValidText(x.jobId, false) || !ValidText(x.holder, false) then Some(InvalidText)
    else match x
      case Complete(_, _, key, at) =>
        if !ValidText(key, false) then Some(InvalidText) else if !InRange(at) then Some(InvalidTime) else None
      case Retry(_, _, attempts, at, detail) =>
        if !ValidInteger(attempts, 0) then Some(InvalidInteger)
        else if !ValidText(detail, true) then Some(InvalidText)
        else if !InRange(at) then Some(InvalidTime) else None
      case Bury(_, _, attempts, _, detail, at) =>
        if !ValidInteger(attempts, 0) then Some(InvalidInteger)
        else if !ValidText(detail, true) then Some(InvalidText)
        else if !InRange(at) then Some(InvalidTime) else None
      case Release(_, _, at) => if !InRange(at) then Some(InvalidTime) else None
  }

  function CheckReplay(id: string, at: int): Option<Refusal> {
    if !ValidText(id, false) then Some(InvalidText) else if !InRange(at) then Some(InvalidTime) else None
  }

  // ---- enqueue ----

  function Fresh<T>(j: Job, enqueuedAt: T, availableAt: T): Row<T> {
    Row(j.name, j.payload, Pending, 0, enqueuedAt, j.dedupeKey, "", availableAt, None, None, None, None)
  }

  ghost predicate KeyTaken<T>(jobs: map<string, Row<T>>, key: Option<string>) {
    key.Some? && exists id | id in jobs :: jobs[id].dedupeKey == key
  }

  /** A row under a dedupe key wins over the insert; a repeated id without one is a constraint failure. */
  ghost predicate EnqueueDoes(s: Store, j: Job, r: Result<Enqueued, Refusal>, s': Store) {
    if CheckJob(j).Some? then r == Failure(CheckJob(j).value) && s' == s
    else if KeyTaken(s.jobs, j.dedupeKey) then
      r.Success? && r.value.Duplicate? && r.value.jobId in s.jobs && s.jobs[r.value.jobId].dedupeKey == j.dedupeKey
        && s' == s
    else if j.id in s.jobs then r == Failure(ConstraintFailed) && s' == s
    else r == Success(Inserted(j.id)) && s' == s.(jobs := s.jobs[j.id := Fresh(j, j.enqueuedAt, j.availableAt)])
  }

  // ---- order of rows ----

  /** Enqueue time first, then the id by its characters. */
  predicate RowBefore(jobs: map<string, Row<int>>, a: string, b: string)
    requires a in jobs && b in jobs
  {
    jobs[a].enqueuedAt < jobs[b].enqueuedAt || (jobs[a].enqueuedAt == jobs[b].enqueuedAt && Less(a, b))
  }

  ghost predicate InRowOrder(jobs: map<string, Row<int>>, ids: seq<string>) {
    && (forall id | id in ids :: id in jobs)
    && (forall i, j | 0 <= i < j < |ids| :: RowBefore(jobs, ids[i], ids[j]))
  }

  // ---- claim ----

  predicate Claimable(r: Row<int>, now: int) {
    r.status == Pending && r.leaseUntil <= now
  }

  ghost function ClaimableIds(s: Store, ids: set<string>, now: int): set<string> {
    set id | id in ids && id in s.jobs && Claimable(s.jobs[id], now)
  }

  function Leased<T>(r: Row<T>, holder: string, until: T): Row<T> {
    r.(leaseOwner := holder, leaseUntil := until)
  }

  /** One set-based update of all requested rows that are pending with an expired lease. */
  function ClaimAll(s: Store, ids: set<string>, holder: string, now: int, until: int): Store {
    s.(jobs := map id | id in s.jobs ::
                 if id in ids && Claimable(s.jobs[id], now) then Leased(s.jobs[id], holder, until) else s.jobs[id])
  }

  // ---- settle ----

  predicate Holds<T>(r: Row<T>, holder: string) {
    r.leaseOwner == holder && r.leaseOwner != "" && r.status == Pending
  }

  function When(x: Settlement): int {
    match x
    case Complete(_, _, _, at) => at
    case Retry(_, _, _, at, _) => at
    case Bury(_, _, _, _, _, at) => at
    case Release(_, _, at) => at
  }

  function Settled<T>(r: Row<T>, x: Settlement, at: T): Row<T> {
    match x
    case Complete(_, _, _, _) =>
      r.(status := Done, attempts := r.attempts + 1, leaseOwner := "", leaseUntil := at, lastError := None,
         deadReason := None, deadDetail := None, deadAt := None)
    case Retry(_, _, attempts, _, detail) =>
      r.(attempts := attempts, leaseOwner := "", leaseUntil := at, lastError := Some(detail),
         deadReason := None, deadDetail := None, deadAt := None)
    case Bury(_, _, attempts, reason, detail, _) =>
      r.(status := Dead, attempts := attempts, leaseOwner := "", leaseUntil := at, lastError := Some(detail),
         deadReason := Some(reason), deadDetail := Some(detail), deadAt := Some(at))
    case Release(_, _, _) => r.(leaseOwner := "", leaseUntil := at)
  }

  predicate Accepts(s: Store, x: Settlement) {
    x.jobId in s.jobs && Holds(s.jobs[x.jobId], x.holder)
  }

  /** Completing adds one attempt, and the attempts column has a largest value. */
  predicate Overflows(s: Store, x: Settlement) {
    Accepts(s, x) && x.Complete? && s.jobs[x.jobId].attempts + 1 > MAX_INTEGER
  }

  function Settle(s: Store, x: Settlement): (Result<bool, Refusal>, Store) {
    if CheckSettlement(x).Some? then (Failure(CheckSettlement(x).value), s)
    else if !Accepts(s, x) then (Success(false), s)
    else if Overflows(s, x) then (Failure(ConstraintFailed), s)
    else
      (Success(true),
       Store(s.jobs[x.jobId := Settled(s.jobs[x.jobId], x, When(x))],
             if x.Complete? && x.idempotencyKey !in s.completed then s.completed[x.idempotencyKey := x.completedAt]
             else s.completed))
  }

  // ---- replay ----

  function Replayed<T>(r: Row<T>, at: T): Row<T> {
    r.(status := Pending, attempts := 0, leaseOwner := "", leaseUntil := at, lastError := None,
       deadReason := None, deadDetail := None, deadAt := None)
  }

  function Replay(s: Store, id: string, at: int): (Result<bool, Refusal>, Store) {
    if CheckReplay(id, at).Some? then (Failure(CheckReplay(id, at).value), s)
    else if id !in s.jobs || s.jobs[id].status != Dead then (Success(false), s)
    else (Success(true), s.(jobs := s.jobs[id := Replayed(s.jobs[id], at)]))
  }
}
