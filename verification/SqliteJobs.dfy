/**
 * The SQLite job store: times are stored and compared as text, and rows are claimed one by
 * one. Its methods are proved to do what the set-based statements on real times do.
 */
module SqliteJobs {
  import opened Wrappers
  import opened Sequences
  import opened Texts
  import opened Calendar
  import opened Jobs
  import opened JobRuns
  import JobRows

  type TextRow = Row<string>

  datatype Candidate = Candidate(id: string, name: string, enqueuedAt: int)

  datatype Claimed = Claimed(id: string, name: string, enqueuedAt: int, payload: string, attempts: int, holder: string,
                             dedupeKey: Option<string>)

  // ---- text rows stand for rows ----

  predicate Storable(r: Row<int>) {
    InRange(r.enqueuedAt) && InRange(r.leaseUntil) && (r.deadAt.Some? ==> InRange(r.deadAt.value))
      && ValidInteger(r.attempts, 0)
  }

  function Encoded(r: Row<int>): TextRow
    requires Storable(r)
  {
    Row(r.name, r.payload, r.status, r.attempts, Iso(r.enqueuedAt), r.dedupeKey, r.leaseOwner, Iso(r.leaseUntil),
        r.lastError, r.deadReason, r.deadDetail, if r.deadAt.Some? then Some(Iso(r.deadAt.value)) else None)
  }

  ghost predicate StandsFor(t: TextRow, r: Row<int>) {
    Storable(r) && t == Encoded(r)
  }

  ghost predicate Represents(rows: map<string, TextRow>, jobs: map<string, Row<int>>) {
    (forall id :: id in rows <==> id in jobs) && (forall id | id in jobs :: StandsFor(rows[id], jobs[id]))
  }

  ghost predicate RepresentsKeys(done: map<string, string>, completed: map<string, int>) {
    && done.Keys == completed.Keys
    && forall key | key in completed :: InRange(completed[key]) && done[key] == Iso(completed[key])
  }

  /** ORDER BY enqueued_at, id on the stored text. */
  predicate TextBefore(rows: map<string, TextRow>, a: string, b: string)
    requires a in rows && b in rows
  {
    Less(rows[a].enqueuedAt, rows[b].enqueuedAt) || (rows[a].enqueuedAt == rows[b].enqueuedAt && Less(a, b))
  }

  lemma TextOrderIsRowOrder(rows: map<string, TextRow>, jobs: map<string, Row<int>>, a: string, b: string)
    requires Represents(rows, jobs) && a in rows && b in rows
    ensures TextBefore(rows, a, b) <==> RowBefore(jobs, a, b)
  {
    assert StandsFor(rows[a], jobs[a]) && StandsFor(rows[b], jobs[b]);
    IsoOrders(jobs[a].enqueuedAt, jobs[b].enqueuedAt);
  }

  lemma TextOrderIsTotal(rows: map<string, TextRow>, a: string, b: string)
    requires a in rows && b in rows && a != b
    ensures TextBefore(rows, a, b) || TextBefore(rows, b, a)
  {
    Trichotomy(rows[a].enqueuedAt, rows[b].enqueuedAt);
    Trichotomy(a, b);
  }

  lemma TextOrderIsTransitive(rows: map<string, TextRow>, a: string, b: string, c: string)
    requires a in rows && b in rows && c in rows && TextBefore(rows, a, b) && TextBefore(rows, b, c)
    ensures TextBefore(rows, a, c)
  {
    var x, y, z := rows[a].enqueuedAt, rows[b].enqueuedAt, rows[c].enqueuedAt;
    if Less(x, y) && Less(y, z) {
      Transitive(x, y, z);
    }
    if Less(a, b) && Less(b, c) {
      Transitive(a, b, c);
    }
  }

  ghost predicate InTextOrder(rows: map<string, TextRow>, ids: seq<string>) {
    && (forall id | id in ids :: id in rows)
    && (forall i, j | 0 <= i < j < |ids| :: TextBefore(rows, ids[i], ids[j]))
  }

  lemma InTextOrderIsInRowOrder(rows: map<string, TextRow>, jobs: map<string, Row<int>>, ids: seq<string>)
    requires Represents(rows, jobs) && InTextOrder(rows, ids)
    ensures InRowOrder(jobs, ids)
  {
    forall i, j | 0 <= i < j < |ids|
      ensures RowBefore(jobs, ids[i], ids[j])
    {
      assert ids[i] in rows && ids[j] in rows;
      TextOrderIsRowOrder(rows, jobs, ids[i], ids[j]);
    }
  }

  method Place(rows: map<string, TextRow>, ids: seq<string>, id: string) returns (placed: seq<string>)
    requires InTextOrder(rows, ids) && id in rows && id !in ids
    ensures InTextOrder(rows, placed)
    ensures forall x :: x in placed <==> x in ids || x == id
  {
    var k := 0;
    while k < |ids| && TextBefore(rows, ids[k], id)
      invariant 0 <= k <= |ids|
      invariant forall i | 0 <= i < k :: ids[i] in rows && TextBefore(rows, ids[i], id)
    {
      k := k + 1;
    }
    placed := ids[..k] + [id] + ids[k..];
    assert ids == ids[..k] + ids[k..];
    forall j | k <= j < |ids|
      ensures ids[j] in rows && TextBefore(rows, id, ids[j])
    {
      assert ids[k] in ids && ids[j] in ids;
      TextOrderIsTotal(rows, id, ids[k]);
      if k < j {
        TextOrderIsTransitive(rows, id, ids[k], ids[j]);
      }
    }
  }

  /** The ORDER BY of a query over the rows with the given ids. */
  method OrderBy(rows: map<string, TextRow>, ids: set<string>) returns (ordered: seq<string>)
    requires ids <= rows.Keys
    ensures InTextOrder(rows, ordered)
    ensures forall x :: x in ordered <==> x in ids
  {
    ordered := [];
    var rest := ids;
    while rest != {}
      invariant rest <= ids && InTextOrder(rows, ordered)
      invariant forall x :: x in ordered <==> x in ids - rest
      decreases rest
    {
      var id :| id in rest;
      ordered := Place(rows, ordered, id);
      rest := rest - {id};
    }
  }

  // ---- orders of rows are determined by the rows they list ----

  lemma RowOrderIsStrict(jobs: map<string, Row<int>>, a: string, b: string)
    requires a in jobs && b in jobs
    ensures !(RowBefore(jobs, a, b) && RowBefore(jobs, b, a)) && !RowBefore(jobs, a, a)
  {
    Trichotomy(a, b);
  }

  lemma SameHead(jobs: map<string, Row<int>>, a: seq<string>, b: seq<string>)
    requires InRowOrder(jobs, a) && InRowOrder(jobs, b) && a != [] && b != [] && forall x :: x in a <==> x in b
    ensures a[0] == b[0]
  {
    assert a[0] in a && b[0] in b;
    var i :| 0 <= i < |b| && b[i] == a[0];
    var j :| 0 <= j < |a| && a[j] == b[0];
    RowOrderIsStrict(jobs, a[0], b[0]);
  }

  lemma HeadOnlyOnce(jobs: map<string, Row<int>>, a: seq<string>, x: string)
    requires InRowOrder(jobs, a) && a != []
    ensures x in a[1..] <==> x in a && x != a[0]
  {
    if x in a[1..] {
      var i :| 0 <= i < |a[1..]| && a[1..][i] == x;
      assert a[i + 1] == x && a[0] in a;
      RowOrderIsStrict(jobs, a[0], a[0]);
    }
  }

  lemma TailsAgree(jobs: map<string, Row<int>>, a: seq<string>, b: seq<string>)
    requires InRowOrder(jobs, a) && InRowOrder(jobs, b) && a != [] && b != [] && a[0] == b[0]
    requires forall x :: x in a <==> x in b
    ensures InRowOrder(jobs, a[1..]) && InRowOrder(jobs, b[1..]) && forall x :: x in a[1..] <==> x in b[1..]
  {
    forall x
      ensures x in a[1..] <==> x in a && x != a[0]
      ensures x in b[1..] <==> x in b && x != b[0]
    {
      HeadOnlyOnce(jobs, a, x);
      HeadOnlyOnce(jobs, b, x);
    }
  }

  lemma {:induction false} OneRowOrder(jobs: map<string, Row<int>>, a: seq<string>, b: seq<string>)
    requires InRowOrder(jobs, a) && InRowOrder(jobs, b) && forall x :: x in a <==> x in b
    ensures a == b
  {
    if a == [] {
      assert forall i | 0 <= i < |b| :: b[i] in b;
    } else {
      assert a[0] in a && b != [];
      SameHead(jobs, a, b);
      TailsAgree(jobs, a, b);
      OneRowOrder(jobs, a[1..], b[1..]);
      assert a == [a[0]] + a[1..] && b == [b[0]] + b[1..];
    }
  }

  // ---- candidates, and claiming what they returned ----

  /** The first rows in row order among those pending with an expired lease. */
  ghost predicate AreCandidates(s: Store, now: int, limit: nat, ids: seq<string>) {
    exists all ::
      && InRowOrder(s.jobs, all)
      && (forall id :: id in all <==> id in s.jobs && Claimable(s.jobs[id], now))
      && ids == all[..if limit < |all| then limit else |all|]
  }

  function ClaimedOf(id: string, r: Row<int>): Claimed {
    Claimed(id, r.name, r.enqueuedAt, r.payload, r.attempts, r.leaseOwner, r.dedupeKey)
  }

  function ClaimedIds(granted: seq<Claimed>): (ids: seq<string>)
    ensures |ids| == |granted| && forall i | 0 <= i < |granted| :: ids[i] == granted[i].id
  {
    if granted == [] then [] else [granted[0].id] + ClaimedIds(granted[1..])
  }

  /** What a claim returns: the rows it granted, in row order, as they are after the claim. */
  ghost predicate AreGranted(before: Store, after: Store, ids: set<string>, now: int, granted: seq<Claimed>) {
    && InRowOrder(after.jobs, ClaimedIds(granted))
    && (forall id :: id in ClaimedIds(granted) <==> id in ClaimableIds(before, ids, now))
    && (forall i | 0 <= i < |granted| ::
          granted[i].id in after.jobs && granted[i] == ClaimedOf(granted[i].id, after.jobs[granted[i].id]))
  }

  function CandidateIds(listed: seq<Candidate>): (ids: seq<string>)
    ensures |ids| == |listed| && forall i | 0 <= i < |listed| :: ids[i] == listed[i].id
  {
    if listed == [] then [] else [listed[0].id] + CandidateIds(listed[1..])
  }

  /** Each candidate carries the name and enqueue time of its row. */
  ghost predicate Describe(s: Store, listed: seq<Candidate>) {
    forall i | 0 <= i < |listed| ::
      && listed[i].id in s.jobs && listed[i].name == s.jobs[listed[i].id].name
      && listed[i].enqueuedAt == s.jobs[listed[i].id].enqueuedAt
  }

  lemma ClaimKeepsRowOrder(s: Store, ids: set<string>, holder: string, now: int, until: int, order: seq<string>)
    ensures InRowOrder(s.jobs, order) <==> InRowOrder(ClaimAll(s, ids, holder, now, until).jobs, order)
  {
    var jobs := ClaimAll(s, ids, holder, now, until).jobs;
    assert forall id :: id in jobs <==> id in s.jobs;
    assert forall id | id in s.jobs :: jobs[id].enqueuedAt == s.jobs[id].enqueuedAt;
    if InRowOrder(s.jobs, order) {
      forall i, j | 0 <= i < j < |order| ensures RowBefore(jobs, order[i], order[j]) {
        assert order[i] in order && order[j] in order && RowBefore(s.jobs, order[i], order[j]);
      }
    }
    if InRowOrder(jobs, order) {
      forall i, j | 0 <= i < j < |order| ensures RowBefore(s.jobs, order[i], order[j]) {
        assert order[i] in order && order[j] in order && RowBefore(jobs, order[i], order[j]);
      }
    }
  }

  lemma PrefixInRowOrder(jobs: map<string, Row<int>>, all: seq<string>, k: nat)
    requires InRowOrder(jobs, all) && k <= |all|
    ensures InRowOrder(jobs, all[..k])
  {
    forall id | id in all[..k] ensures id in jobs { assert id in all; }
  }

  /** Claiming just what candidates returned, at the same instant, grants every one of them in the same order. */
  lemma CandidatesAreGranted(s: Store, now: int, limit: nat, ids: seq<string>, holder: string, until: int,
                             granted: seq<Claimed>)
    requires AreCandidates(s, now, limit, ids)
    requires AreGranted(s, ClaimAll(s, Ids(ids), holder, now, until), Ids(ids), now, granted)
    ensures ClaimedIds(granted) == ids
    ensures forall i | 0 <= i < |granted| :: granted[i].holder == holder
  {
    var after := ClaimAll(s, Ids(ids), holder, now, until);
    var all :| InRowOrder(s.jobs, all) && (forall id :: id in all <==> id in s.jobs && Claimable(s.jobs[id], now))
               && ids == all[..if limit < |all| then limit else |all|];
    PrefixInRowOrder(s.jobs, all, |ids|);
    ClaimKeepsRowOrder(s, Ids(ids), holder, now, until, ids);
    forall id
      ensures id in ids <==> id in ClaimableIds(s, Ids(ids), now)
    {
      if id in ids { assert id in all; }
    }
    OneRowOrder(after.jobs, ClaimedIds(granted), ids);
    forall i | 0 <= i < |granted|
      ensures granted[i].holder == holder
    {
      assert ClaimedIds(granted)[i] in ids;
      assert granted[i].id in ClaimableIds(s, Ids(ids), now);
    }
  }

  /** Candidates may be claimed, come in the order they were enqueued, and none left out would come earlier. */
  lemma CandidatesAreFirst(s: Store, now: int, limit: nat, ids: seq<string>)
    requires AreCandidates(s, now, limit, ids)
    ensures |ids| <= limit
    ensures forall i, j | 0 <= i < j < |ids| ::
              && ids[i] in s.jobs && ids[j] in s.jobs && ids[i] != ids[j]
              && s.jobs[ids[i]].enqueuedAt <= s.jobs[ids[j]].enqueuedAt
              && (s.jobs[ids[i]].enqueuedAt == s.jobs[ids[j]].enqueuedAt ==> Less(ids[i], ids[j]))
    ensures forall id | id in ids :: id in s.jobs && s.jobs[id].status == Pending && s.jobs[id].leaseUntil <= now
    ensures forall id, x |
              id in s.jobs && s.jobs[id].status == Pending && s.jobs[id].leaseUntil <= now && id !in ids && x in ids ::
              |ids| == limit && x in s.jobs && s.jobs[x].enqueuedAt <= s.jobs[id].enqueuedAt
    ensures ids == [] && limit > 0 ==>
              forall id | id in s.jobs && s.jobs[id].status == Pending :: s.jobs[id].leaseUntil > now
  {
    var all :| InRowOrder(s.jobs, all) && (forall id :: id in all <==> id in s.jobs && Claimable(s.jobs[id], now))
               && ids == all[..if limit < |all| then limit else |all|];
    forall i, j | 0 <= i < j < |ids|
      ensures ids[i] != ids[j]
    {
      RowOrderIsStrict(s.jobs, all[i], all[j]);
    }
    assert forall k | 0 <= k < |ids| :: ids[k] == all[k] && all[k] in ids;
    forall id | id in s.jobs && s.jobs[id].status == Pending && s.jobs[id].leaseUntil <= now && id !in ids
      ensures |ids| == limit
      ensures forall x | x in ids :: x in s.jobs && s.jobs[x].enqueuedAt <= s.jobs[id].enqueuedAt
    {
      assert id in all;
      var k :| 0 <= k < |all| && all[k] == id;
      assert k >= |ids|;
    }
  }

  /** What a claim hands out is what was enqueued, with the attempts made so far and the holder's name. */
  lemma GrantsDescribeJobs(run: seq<Step>, before: Store, ids: set<string>, now: int, granted: seq<Claimed>, i: nat)
    requires IsRun(run) && AreGranted(before, Final(run), ids, now, granted) && i < |granted|
    ensures var log := JobRows.Log(run, granted[i].id);
            && log != [] && log[0].Added?
            && var job := log[0].job;
               granted[i] == Claimed(job.id, job.name, job.enqueuedAt, job.payload, JobRows.Attempts(log),
                                     JobRows.Holder(log), job.dedupeKey)
  {
    JobRows.EveryRowIsItsLog(run, granted[i].id);
  }

  // ---- one statement on the stored text ----

  lemma ExpiredAsText(r: Row<int>, now: int)
    requires Storable(r) && InRange(now)
    ensures AtMost(Encoded(r).leaseUntil, Iso(now)) <==> r.leaseUntil <= now
  {
    IsoOrders(r.leaseUntil, now);
  }

  lemma PutRow(rows: map<string, TextRow>, jobs: map<string, Row<int>>, id: string, r: Row<int>)
    requires Represents(rows, jobs) && Storable(r)
    ensures Represents(rows[id := Encoded(r)], jobs[id := r])
  {
    hide Encoded, Storable;
    assert StandsFor(Encoded(r), r);
  }

  lemma RowAsText(rows: map<string, TextRow>, jobs: map<string, Row<int>>, id: string)
    requires Represents(rows, jobs)
    ensures id in rows <==> id in jobs
    ensures id in rows ==> Storable(jobs[id]) && rows[id] == Encoded(jobs[id])
  {
    if id in jobs { assert StandsFor(rows[id], jobs[id]); }
  }

  lemma LeasedAsText(rows: map<string, TextRow>, jobs: map<string, Row<int>>, id: string, holder: string, until: int)
    requires Represents(rows, jobs) && id in jobs && InRange(until)
    ensures id in rows
    ensures Represents(rows[id := Leased(rows[id], holder, Iso(until))], jobs[id := Leased(jobs[id], holder, until)])
  {
    hide Iso;
    RowAsText(rows, jobs, id);
    PutRow(rows, jobs, id, Leased(jobs[id], holder, until));
  }

  // ---- claiming one id at a time ----

  predicate ClaimableText(rows: map<string, TextRow>, id: string, now: string) {
    id in rows && rows[id].status == Pending && AtMost(rows[id].leaseUntil, now)
  }

  lemma ClaimableAsText(rows: map<string, TextRow>, jobs: map<string, Row<int>>, id: string, now: int)
    requires Represents(rows, jobs) && InRange(now)
    ensures ClaimableText(rows, id, Iso(now)) <==> id in jobs && Claimable(jobs[id], now)
  {
    RowAsText(rows, jobs, id);
    if id in jobs {
      ExpiredAsText(jobs[id], now);
    }
  }

  lemma ClaimOneMore(s: Store, ids: set<string>, id: string, holder: string, now: int, until: int)
    requires id !in ids
    ensures var jobs := ClaimAll(s, ids, holder, now, until).jobs;
            && (id in jobs <==> id in s.jobs)
            && (id in jobs ==> jobs[id] == s.jobs[id])
            && ClaimAll(s, ids + {id}, holder, now, until).jobs
               == if id in jobs && Claimable(jobs[id], now) then jobs[id := Leased(jobs[id], holder, until)] else jobs
    ensures ClaimableIds(s, ids + {id}, now)
            == ClaimableIds(s, ids, now) + if id in s.jobs && Claimable(s.jobs[id], now) then {id} else {}
  {
  }

  lemma ClaimNothing(s: Store, holder: string, now: int, until: int)
    ensures ClaimAll(s, {}, holder, now, until) == s && ClaimableIds(s, {}, now) == {}
  {
    assert ClaimAll(s, {}, holder, now, until).jobs == s.jobs;
  }

  lemma CheckedClaim(ids: seq<string>, holder: string, now: int, until: int)
    requires CheckClaim(ids, holder, now, until).None?
    ensures InRange(now) && InRange(until)
  {
  }

  lemma ClaimKeepsTheRest(s: Store, ids: set<string>, holder: string, now: int, until: int)
    ensures var after := ClaimAll(s, ids, holder, now, until);
            after.completed == s.completed && ClaimableIds(s, ids, now) <= after.jobs.Keys
  {
  }

  lemma NextOccurrence(unique: seq<string>, i: nat)
    requires i < |unique| && forall i, j | 0 <= i < j < |unique| :: unique[i] != unique[j]
    ensures unique[i] !in Ids(unique[..i]) && Ids(unique[..i + 1]) == Ids(unique[..i]) + {unique[i]}
  {
    assert unique[..i + 1] == unique[..i] + [unique[i]];
  }

  lemma Append(run: seq<Step>, step: Step)
    requires IsRun(run) && step.before == Final(run) && Performs(step)
    ensures IsRun(run + [step]) && Final(run + [step]) == step.after
  {
    assert (run + [step])[..|run|] == run;
  }

  // ---- the store object ----

  class SqliteStore {
    var rows: map<string, TextRow>
    var done: map<string, string>
    var closed: bool
    /** Every statement that reached the table, oldest first. */
    ghost var run: seq<Step>
    /** How often the callback that releases the database has been called. */
    ghost var disposals: nat

    ghost predicate Valid()
      reads this
    {
      && IsRun(run) && Represents(rows, Final(run).jobs) && RepresentsKeys(done, Final(run).completed)
      && disposals == if closed then 1 else 0
    }

    /** The table as a value. */
    ghost function View(): Store
      reads this
    {
      Final(run)
    }

    constructor ()
      ensures Valid() && run == [] && !closed
    {
      rows, done, closed := map[], map[], false;
      run, disposals := [], 0;
    }

    /** However often it is called, the database is released once; a bad grace period changes nothing. */
    method Close(graceMs: Option<int>) returns (r: Option<Refusal>)
      requires Valid()
      modifies this`closed, this`disposals
      ensures Valid()
      ensures if graceMs.Some? && !ValidInteger(graceMs.value, 0)
              then r == Some(InvalidInteger) && closed == old(closed)
              else r == None && closed
    {
      if graceMs.Some? && !ValidInteger(graceMs.value, 0) {
        return Some(InvalidInteger);
      }
      if closed {
        return None;
      }
      closed, disposals := true, disposals + 1;
      return None;
    }

    method Enqueue(job: Job) returns (r: Result<Enqueued, Refusal>)
      requires Valid()
      modifies this
      ensures Valid() && closed == old(closed)
      ensures if CheckJob(job).None? && old(closed) then r == Failure(StoreClosed) && run == old(run)
              else run == old(run) + [Step(EnqueueJob(job, r), old(View()), View())]
    {
      hide Iso;
      ghost var before := Final(run);
      if CheckJob(job).Some? {
        r := Failure(CheckJob(job).value);
      } else if closed {
        return Failure(StoreClosed);
      } else {
        RowAsText(rows, before.jobs, job.id);
        if job.dedupeKey.Some? && exists id :: id in rows && rows[id].dedupeKey == job.dedupeKey {
          var existing :| existing in rows && rows[existing].dedupeKey == job.dedupeKey;
          RowAsText(rows, before.jobs, existing);
          r := Success(Duplicate(existing));
        } else if job.id in rows {
          r := Failure(ConstraintFailed);
        } else {
          PutRow(rows, before.jobs, job.id, Fresh(job, job.enqueuedAt, job.availableAt));
          rows := rows[job.id := Fresh(job, Iso(job.enqueuedAt), Iso(job.availableAt))];
          r := Success(Inserted(job.id));
        }
      }
      ghost var after := before.(jobs :=
        if r.Success? && r.value.Inserted?
        then before.jobs[job.id := Fresh(job, job.enqueuedAt, job.availableAt)] else before.jobs);
      Append(run, Step(EnqueueJob(job, r), before, after));
      run := run + [Step(EnqueueJob(job, r), before, after)];
    }

    /** Decodes the selected columns of the rows with the given ids. */
    method ReadCandidates(ids: seq<string>) returns (listed: seq<Candidate>)
      requires Valid() && forall id | id in ids :: id in rows
      ensures CandidateIds(listed) == ids && Describe(View(), listed)
    {
      hide Iso, Parse, IsRun, Represents, RepresentsKeys;
      listed := [];
      var i := 0;
      while i < |ids|
        invariant i == |listed| <= |ids|
        invariant forall k | 0 <= k < i :: listed[k].id == ids[k]
        invariant Describe(View(), listed)
      {
        var row := rows[ids[i]];
        RowAsText(rows, View().jobs, ids[i]);
        ParseInvertsIso(View().jobs[ids[i]].enqueuedAt);
        listed := listed + [Candidate(ids[i], row.name, Parse(row.enqueuedAt).value)];
        i := i + 1;
      }
    }

    method Candidates(now: int, limit: int) returns (r: Result<seq<Candidate>, Refusal>)
      requires Valid()
      ensures if !ValidInteger(limit, 1) then r == Failure(InvalidInteger)
              else if !InRange(now) then r == Failure(InvalidTime)
              else if closed then r == Failure(StoreClosed)
              else r.Success? && AreCandidates(View(), now, limit, CandidateIds(r.value)) && Describe(View(), r.value)
    {
      hide Iso;
      if !ValidInteger(limit, 1) {
        return Failure(InvalidInteger);
      }
      if !InRange(now) {
        return Failure(InvalidTime);
      }
      if closed {
        return Failure(StoreClosed);
      }
      ghost var jobs := View().jobs;
      var at := Iso(now);
      var ordered := OrderBy(rows, set id | id in rows && ClaimableText(rows, id, at));
      forall id
        ensures id in ordered <==> id in jobs && Claimable(jobs[id], now)
      {
        ClaimableAsText(rows, jobs, id, now);
      }
      InTextOrderIsInRowOrder(rows, jobs, ordered);
      var chosen := ordered[..if limit < |ordered| then limit else |ordered|];
      assert forall id | id in chosen :: id in rows;
      var listed := ReadCandidates(chosen);
      r := Success(listed);
    }

    /** One UPDATE … RETURNING per id, on the stored text. */
    method UpdateEach(unique: seq<string>, holder: string, now: int, until: int) returns (changed: set<string>)
      requires Valid() && InRange(now) && InRange(until)
      requires forall i, j | 0 <= i < j < |unique| :: unique[i] != unique[j]
      modifies this`rows
      ensures Represents(rows, ClaimAll(View(), Ids(unique), holder, now, until).jobs)
      ensures changed == ClaimableIds(View(), Ids(unique), now)
    {
      hide Iso, ClaimAll, ClaimableIds, Represents, RepresentsKeys, IsRun, Less;
      changed := {};
      ghost var before := View();
      ClaimNothing(before, holder, now, until);
      assert unique[..0] == [] && Ids([]) == {};
      var i := 0;
      while i < |unique|
        invariant i <= |unique|
        invariant Represents(rows, ClaimAll(before, Ids(unique[..i]), holder, now, until).jobs)
        invariant changed == ClaimableIds(before, Ids(unique[..i]), now)
      {
        var id := unique[i];
        ghost var jobs := ClaimAll(before, Ids(unique[..i]), holder, now, until).jobs;
        NextOccurrence(unique, i);
        ClaimOneMore(before, Ids(unique[..i]), id, holder, now, until);
        ClaimableAsText(rows, jobs, id, now);
        if ClaimableText(rows, id, Iso(now)) {
          LeasedAsText(rows, jobs, id, holder, until);
          rows := rows[id := Leased(rows[id], holder, Iso(until))];
          changed := changed + {id};
        }
        i := i + 1;
      }
      assert unique[..i] == unique;
    }

    /** Reads the changed rows back in order and decodes them. */
    method ReadClaimed(changed: set<string>) returns (listed: seq<Claimed>)
      requires Valid() && changed <= View().jobs.Keys
      ensures InRowOrder(View().jobs, ClaimedIds(listed))
      ensures forall id :: id in ClaimedIds(listed) <==> id in changed
      ensures forall k | 0 <= k < |listed| ::
                listed[k].id in View().jobs && listed[k] == ClaimedOf(listed[k].id, View().jobs[listed[k].id])
    {
      hide Iso, Parse, IsRun, Represents, RepresentsKeys;
      ghost var jobs := View().jobs;
      forall id | id in changed
        ensures id in rows
      {
        RowAsText(rows, jobs, id);
      }
      var ordered := OrderBy(rows, changed);
      InTextOrderIsInRowOrder(rows, jobs, ordered);
      listed := [];
      var i := 0;
      while i < |ordered|
        invariant i == |listed| <= |ordered|
        invariant forall k | 0 <= k < i ::
          listed[k].id == ordered[k] && ordered[k] in jobs && listed[k] == ClaimedOf(ordered[k], jobs[ordered[k]])
      {
        var id := ordered[i];
        var row := rows[id];
        RowAsText(rows, jobs, id);
        ParseInvertsIso(jobs[id].enqueuedAt);
        listed := listed + [Claimed(id, row.name, Parse(row.enqueuedAt).value, row.payload, row.attempts,
          row.leaseOwner, row.dedupeKey)];
        i := i + 1;
      }
      assert ClaimedIds(listed) == ordered;
    }

    method Claim(ids: seq<string>, holder: string, now: int, until: int) returns (r: Result<seq<Claimed>, Refusal>)
      requires Valid()
      modifies this
      ensures Valid() && closed == old(closed)
      ensures if old(closed) then r == Failure(StoreClosed) && run == old(run)
              else run == old(run) + [Step(ClaimJobs(ids, holder, now, until), old(View()), View())]
      ensures !old(closed) ==>
              match CheckClaim(ids, holder, now, until)
              case Some(refusal) => r == Failure(refusal)
              case None => r.Success? && AreGranted(old(View()), View(), Ids(ids), now, r.value)
    {
      hide Iso, ClaimAll, ClaimableIds, Represents, IsRun, CheckClaim;
      if closed {
        return Failure(StoreClosed);
      }
      ghost var before := View();
      if CheckClaim(ids, holder, now, until).Some? {
        Append(run, Step(ClaimJobs(ids, holder, now, until), before, before));
        run := run + [Step(ClaimJobs(ids, holder, now, until), before, before)];
        return Failure(CheckClaim(ids, holder, now, until).value);
      }
      var unique := FirstOccurrences(ids);
      assert Ids(unique) == Ids(ids);
      ghost var after := ClaimAll(before, Ids(ids), holder, now, until);
      ghost var step := Step(ClaimJobs(ids, holder, now, until), before, after);
      Append(run, step);
      CheckedClaim(ids, holder, now, until);
      ClaimKeepsTheRest(before, Ids(ids), holder, now, until);
      if unique == [] {
        assert Ids([]) == {};
        ClaimNothing(before, holder, now, until);
        run := run + [step];
        return Success([]);
      }
      var changed := UpdateEach(unique, holder, now, until);
      run := run + [step];
      var listed := ReadClaimed(changed);
      r := Success(listed);
    }

    method Completed(key: string) returns (r: Result<bool, Refusal>)
      requires Valid()
      ensures r == if !ValidText(key, false) then Failure(InvalidText)
                   else if closed then Failure(StoreClosed)
                   else Success(key in View().completed)
    {
      if !ValidText(key, false) {
        return Failure(InvalidText);
      }
      if closed {
        return Failure(StoreClosed);
      }
      return Success(key in done.Keys);
    }

    method Settle(x: Settlement) returns (r: Result<bool, Refusal>)
      requires Valid()
      modifies this
      ensures Valid() && closed == old(closed)
      ensures if CheckSettlement(x).None? && old(closed) then r == Failure(StoreClosed) && run == old(run)
              else r == Jobs.Settle(old(View()), x).0 && run == old(run) + [Step(SettleJob(x), old(View()), View())]
    {
      hide Iso, IsRun, Represents;
      ghost var before := View();
      Append(run, Step(SettleJob(x), before, Jobs.Settle(before, x).1));
      if CheckSettlement(x).Some? {
        r := Failure(CheckSettlement(x).value);
      } else if closed {
        return Failure(StoreClosed);
      } else {
        RowAsText(rows, before.jobs, x.jobId);
        if x.jobId !in rows || !Holds(rows[x.jobId], x.holder) {
          r := Success(false);
        } else if x.Complete? && rows[x.jobId].attempts + 1 > MAX_INTEGER {
          r := Failure(ConstraintFailed);
        } else {
          var row := before.jobs[x.jobId];
          PutRow(rows, before.jobs, x.jobId, Settled(row, x, When(x)));
          rows := rows[x.jobId := Settled(rows[x.jobId], x, Iso(When(x)))];
          if x.Complete? && x.idempotencyKey !in done {
            done := done[x.idempotencyKey := Iso(When(x))];
          }
          r := Success(true);
        }
      }
      run := run + [Step(SettleJob(x), before, Jobs.Settle(before, x).1)];
    }

    method Replay(id: string, at: int) returns (r: Result<bool, Refusal>)
      requires Valid()
      modifies this
      ensures Valid() && closed == old(closed)
      ensures if CheckReplay(id, at).None? && old(closed) then r == Failure(StoreClosed) && run == old(run)
              else && r == Jobs.Replay(old(View()), id, at).0
                   && run == old(run) + [Step(ReplayJob(id, at), old(View()), View())]
    {
      hide Iso;
      ghost var before := View();
      Append(run, Step(ReplayJob(id, at), before, Jobs.Replay(before, id, at).1));
      if CheckReplay(id, at).Some? {
        r := Failure(CheckReplay(id, at).value);
      } else if closed {
        return Failure(StoreClosed);
      } else {
        RowAsText(rows, before.jobs, id);
        if id !in rows || rows[id].status != Dead {
          r := Success(false);
        } else {
          PutRow(rows, before.jobs, id, Replayed(before.jobs[id], at));
          rows := rows[id := Replayed(rows[id], Iso(at))];
          r := Success(true);
        }
      }
      run := run + [Step(ReplayJob(id, at), before, Jobs.Replay(before, id, at).1)];
    }
  }
}
