/** The bundle-resident runner as it works on a connection, any of whose calls may fail. */
module EmbeddedRunner {
  import opened Wrappers
  import opened Sequences
  import opened Sorting
  import opened Versions
  import opened Embedded

  datatype Trouble =
    | Refused(refusal: Refusal)
    | ConnectionFailed
    | NotBegun(version: int)
    | NotApplied(version: int)
    | RollbackFailed(version: int)

  /** A database with one connection; `saved` is what a rollback goes back to while a transaction is open. */
  class Database<D(0)> {
    const effect: (string, D) -> D
    var state: State<D>
    var saved: Option<State<D>>
    /** How many calls have failed. */
    ghost var failures: nat

    constructor (effect: (string, D) -> D, state: State<D>)
      ensures this.effect == effect && this.state == state && saved == None
    {
      this.effect, this.state, saved := effect, state, None;
    }

    /** Whether the call just made succeeds. */
    method Try() returns (ok: bool)
      modifies this`failures
      ensures failures == old(failures) + if ok then 0 else 1
    {
      ok := *;
      if !ok {
        failures := failures + 1;
      }
    }

    method ReadColumns() returns (columns: Option<Option<set<string>>>)
      modifies this`failures
      ensures columns.Some? ==> columns.value == state.columns
      ensures failures == old(failures) + if columns.Some? then 0 else 1
    {
      var ok := Try();
      columns := if ok then Some(state.columns) else None;
    }

    /** CREATE TABLE or ALTER TABLE on the ledger. */
    method MakeReady() returns (ok: bool)
      modifies this`state, this`failures
      ensures state == if ok then Ready(old(state)) else old(state)
      ensures failures == old(failures) + if ok then 0 else 1
    {
      ok := Try();
      if ok {
        state := Ready(state);
      }
    }

    method ReadLedger() returns (rows: Option<seq<LedgerRow>>)
      modifies this`failures
      ensures rows.Some? ==> rows.value == SortBy(RowVersion, state.rows)
      ensures failures == old(failures) + if rows.Some? then 0 else 1
    {
      var ok := Try();
      rows := if ok then Some(SortBy(RowVersion, state.rows)) else None;
    }

    /** A transaction inside a transaction is refused. */
    method Begin() returns (ok: bool)
      modifies this`saved, this`failures
      ensures if ok then old(saved) == None && saved == Some(state) else saved == old(saved)
      ensures if ok then failures == old(failures) else failures > old(failures)
    {
      ok := Try();
      if saved.Some? {
        ok, failures := false, failures + 1;
      }
      if ok {
        saved := Some(state);
      }
    }

    /** A migration's body; when it fails, its first statements may have taken effect. */
    method Execute(up: string) returns (ok: bool)
      modifies this`state, this`failures
      ensures ok ==> state == old(state).(data := effect(up, old(state).data))
      ensures failures == old(failures) + if ok then 0 else 1
    {
      ok := Try();
      if ok {
        state := state.(data := effect(up, state.data));
      } else {
        var partial: D := *;
        state := state.(data := partial);
      }
    }

    method Insert(row: LedgerRow) returns (ok: bool)
      modifies this`state, this`failures
      ensures ok ==> state == old(state).(rows := old(state).rows + [row])
      ensures failures == old(failures) + if ok then 0 else 1
    {
      ok := Try();
      if ok {
        state := state.(rows := state.rows + [row]);
      }
    }

    method Commit() returns (ok: bool)
      modifies this`saved, this`failures
      ensures saved == if ok then None else old(saved)
      ensures failures == old(failures) + if ok then 0 else 1
    {
      ok := Try();
      if ok {
        saved := None;
      }
    }

    method Rollback() returns (ok: bool)
      requires saved.Some?
      modifies this
      ensures if ok then state == old(saved).value && saved == None else state == old(state) && saved == old(saved)
      ensures failures == old(failures) + if ok then 0 else 1
    {
      ok := Try();
      if ok {
        state, saved := saved.value, None;
      }
    }
  }

  method EnsureLedger<D(0)>(db: Database<D>) returns (trouble: Option<Trouble>)
    modifies db`state, db`failures
    ensures match trouble
            case None =>
              ReadyFor(old(db.state).columns) && db.state == Ready(old(db.state)) && db.failures == old(db.failures)
            case Some(ConnectionFailed) => db.state == old(db.state) && db.failures > old(db.failures)
            case Some(other) =>
              && other == Refused(BadShape) && !ReadyFor(old(db.state).columns)
              && db.state == old(db.state) && db.failures == old(db.failures)
  {
    var read := db.ReadColumns();
    if read.None? {
      return Some(ConnectionFailed);
    }
    var columns := read.value;
    if columns.Some? && !(REQUIRED <= columns.value) {
      return Some(Refused(BadShape));
    }
    if columns.Some? && "checksum" in columns.value {
      return None;
    }
    var ok := db.MakeReady();
    return if ok then None else Some(ConnectionFailed);
  }

  lemma {:induction false} DifferenceStaysFirst(rows: seq<LedgerRow>, k: nat, byVersion: map<int, Migration>)
    requires k <= |rows| && FirstDifference(rows[..k], byVersion).Some?
    ensures FirstDifference(rows, byVersion) == FirstDifference(rows[..k], byVersion)
    decreases |rows|
  {
    if k == |rows| {
      assert rows[..k] == rows;
    } else {
      assert rows[..|rows| - 1][..k] == rows[..k];
      DifferenceStaysFirst(rows[..|rows| - 1], k, byVersion);
    }
  }

  lemma {:induction false} UnknownStaysFirst(rows: seq<LedgerRow>, k: nat, byVersion: map<int, Migration>)
    requires k <= |rows| && FirstUnknown(rows[..k], byVersion).Some?
    ensures FirstUnknown(rows, byVersion) == FirstUnknown(rows[..k], byVersion)
    decreases |rows|
  {
    if k == |rows| {
      assert rows[..k] == rows;
    } else {
      assert rows[..|rows| - 1][..k] == rows[..k];
      UnknownStaysFirst(rows[..|rows| - 1], k, byVersion);
    }
  }

  /** First every recorded checksum, then every recorded version. */
  method VerifyLedger(rows: seq<LedgerRow>, bundle: seq<Migration>) returns (trouble: Option<Refusal>)
    ensures var byVersion := IndexBy(VersionOf, bundle);
            trouble == if FirstDifference(rows, byVersion).Some? then FirstDifference(rows, byVersion)
                       else FirstUnknown(rows, byVersion)
  {
    var byVersion := IndexBy(VersionOf, bundle);
    hide IndexBy;
    var i := 0;
    while i < |rows|
      invariant i <= |rows| && FirstDifference(rows[..i], byVersion) == None
    {
      assert rows[..i + 1][..i] == rows[..i];
      if Differs(rows[i], byVersion) {
        DifferenceStaysFirst(rows, i + 1, byVersion);
        return Some(ChecksumDiffers(rows[i].version));
      }
      i := i + 1;
    }
    assert rows[..i] == rows;
    i := 0;
    while i < |rows|
      invariant i <= |rows| && FirstUnknown(rows[..i], byVersion) == None
    {
      assert rows[..i + 1][..i] == rows[..i];
      if rows[i].version !in byVersion {
        UnknownStaysFirst(rows, i + 1, byVersion);
        return Some(LedgerAhead(rows[i].version));
      }
      i := i + 1;
    }
    assert rows[..i] == rows;
    return None;
  }

  /** One migration in a transaction of its own: applied and recorded, or neither. */
  method ApplyMigration<D(0)>(db: Database<D>, m: Migration) returns (trouble: Option<Trouble>)
    modifies db
    ensures trouble == None ==> db.state == ApplyOne(db.effect, old(db.state), m) && db.saved == old(db.saved)
    ensures trouble == None <==> db.failures == old(db.failures)
    ensures db.failures >= old(db.failures)
    ensures trouble.Some? ==> trouble.value in {NotBegun(m.version), NotApplied(m.version), RollbackFailed(m.version)}
    ensures trouble.Some? && !trouble.value.RollbackFailed? ==> db.state == old(db.state) && db.saved == old(db.saved)
    ensures trouble == Some(RollbackFailed(m.version)) ==> db.saved == Some(old(db.state))
  {
    var ok := db.Begin();
    if !ok {
      return Some(NotBegun(m.version));
    }
    ok := db.Execute(m.up);
    if ok {
      ok := db.Insert(RowOf(m));
    }
    if ok {
      ok := db.Commit();
    }
    if ok {
      return None;
    }
    ok := db.Rollback();
    return Some(if ok then NotApplied(m.version) else RollbackFailed(m.version));
  }

  /** The outcome of stopping at a pending migration: everything before it is applied, nothing of it is. */
  ghost predicate StoppedAt<D>(effect: (string, D) -> D, pending: seq<Migration>, ready: State<D>, version: int,
                               after: State<D>) {
    exists cut: nat | cut < |pending| ::
      pending[cut].version == version && after == ApplyAll(effect, ready, pending[..cut])
  }

  /** What a failed run leaves behind, once rolled back, leads to the result of one uninterrupted run. */
  lemma StoppedRunResumes<D>(effect: (string, D) -> D, bundle: seq<Migration>, s: State<D>, version: int,
                             after: State<D>)
    requires Refuses(bundle, s).None? && StoppedAt(effect, Pending(bundle, Ready(s)), Ready(s), version, after)
    ensures Refuses(bundle, after).None? && Uninterrupted(effect, bundle, after) == Uninterrupted(effect, bundle, s)
  {
    var pending := Pending(bundle, Ready(s));
    var cut: nat :| cut < |pending| && pending[cut].version == version
      && after == ApplyAll(effect, Ready(s), pending[..cut]);
    assert after == Interrupted(effect, bundle, s, cut);
    RerunReachesTheSame(effect, bundle, s, cut);
  }

  lemma {:induction false} UnappliedPrefix(ordered: seq<Migration>, applied: set<int>, i: nat)
    requires i <= |ordered|
    ensures Unapplied(ordered[..i], applied) <= Unapplied(ordered, applied)
    decreases |ordered|
  {
    if i == |ordered| {
      assert ordered[..i] == ordered;
    } else {
      UnappliedPrefix(ordered[..|ordered| - 1], applied, i);
      assert ordered[..|ordered| - 1][..i] == ordered[..i];
    }
  }

  /** The first i migrations contain the first n of the pending ones. */
  ghost predicate UpTo(ordered: seq<Migration>, applied: set<int>, i: nat, n: nat) {
    && i <= |ordered| && n <= |Unapplied(ordered, applied)|
    && Unapplied(ordered[..i], applied) == Unapplied(ordered, applied)[..n]
  }

  lemma UpToStartAndEnd(ordered: seq<Migration>, applied: set<int>)
    ensures UpTo(ordered, applied, 0, 0)
    ensures forall n: nat | UpTo(ordered, applied, |ordered|, n) :: n == |Unapplied(ordered, applied)|
  {
    assert ordered[..|ordered|] == ordered;
  }

  lemma UpToNext(ordered: seq<Migration>, applied: set<int>, i: nat, n: nat)
    requires UpTo(ordered, applied, i, n) && i < |ordered|
    ensures var pending := Unapplied(ordered, applied);
            if ordered[i].version in applied then UpTo(ordered, applied, i + 1, n)
            else n < |pending| && pending[n] == ordered[i] && UpTo(ordered, applied, i + 1, n + 1)
  {
    assert ordered[..i + 1][..i] == ordered[..i];
    UnappliedPrefix(ordered, applied, i + 1);
  }

  lemma SortedVersions(rows: seq<LedgerRow>)
    ensures Elements(RowVersions(SortBy(RowVersion, rows))) == Elements(RowVersions(rows))
  {
    var sorted := SortBy(RowVersion, rows);
    forall v
      ensures v in RowVersions(sorted) <==> v in RowVersions(rows)
    {
      if v in RowVersions(sorted) {
        var i :| 0 <= i < |sorted| && RowVersions(sorted)[i] == v;
        InSorted(RowVersion, rows, sorted[i]);
        VersionRecorded(rows, sorted[i]);
      }
      if v in RowVersions(rows) {
        var i :| 0 <= i < |rows| && RowVersions(rows)[i] == v;
        InSorted(RowVersion, rows, rows[i]);
        VersionRecorded(sorted, rows[i]);
      }
    }
  }

  /** How applying stops short: which state is left, or waits to be rolled back to. */
  ghost predicate LeftAt<D(0)>(db: Database<D>, pending: seq<Migration>, s: State<D>, saved: Option<State<D>>,
                               trouble: Trouble)
    reads db
  {
    match trouble
    case NotBegun(version) => StoppedAt(db.effect, pending, s, version, db.state) && db.saved == saved
    case NotApplied(version) => StoppedAt(db.effect, pending, s, version, db.state) && db.saved == saved
    case RollbackFailed(version) => db.saved.Some? && StoppedAt(db.effect, pending, s, version, db.saved.value)
    case _ => false
  }

  /** The state and the versions completed once the first n pending migrations are applied. */
  ghost function Reached<D>(effect: (string, D) -> D, s: State<D>, pending: seq<Migration>, n: nat)
    : (State<D>, seq<int>)
    requires n <= |pending|
  {
    (ApplyAll(effect, s, pending[..n]), VersionsOf(pending[..n]))
  }

  lemma ReachedStartAndEnd<D>(effect: (string, D) -> D, s: State<D>, pending: seq<Migration>)
    ensures Reached(effect, s, pending, 0) == (s, [])
    ensures Reached(effect, s, pending, |pending|) == (ApplyAll(effect, s, pending), VersionsOf(pending))
  {
    assert pending[..|pending|] == pending;
  }

  lemma ReachedNext<D>(effect: (string, D) -> D, s: State<D>, pending: seq<Migration>, n: nat)
    requires n < |pending|
    ensures var (state, completed) := Reached(effect, s, pending, n);
            && Reached(effect, s, pending, n + 1)
               == (ApplyOne(effect, state, pending[n]), completed + [pending[n].version])
            && StoppedAt(effect, pending, s, pending[n].version, state)
  {
    assert pending[..n + 1][..n] == pending[..n];
  }

  method ApplyPending<D(0)>(db: Database<D>, ordered: seq<Migration>, rows: seq<LedgerRow>)
    returns (r: Result<seq<int>, Trouble>)
    modifies db
    ensures var s, pending := old(db.state), Unapplied(ordered, Elements(RowVersions(rows)));
            match r
            case Success(completed) =>
              && db.state == ApplyAll(db.effect, s, pending) && db.saved == old(db.saved)
              && completed == VersionsOf(pending)
            case Failure(trouble) => LeftAt(db, pending, s, old(db.saved), trouble)
    ensures r.Success? <==> db.failures == old(db.failures)
    ensures db.failures >= old(db.failures)
  {
    var applied := Elements(RowVersions(rows));
    ghost var s, pending := db.state, Unapplied(ordered, applied);
    var completed: seq<int> := [];
    ghost var n := 0;
    var i := 0;
    UpToStartAndEnd(ordered, applied);
    ReachedStartAndEnd(db.effect, s, pending);
    hide ApplyAll, ApplyOne, VersionsOf, StoppedAt, RowVersions, Elements, Unapplied, UpTo, Reached;
    while i < |ordered|
      invariant i <= |ordered| && n <= |pending| && UpTo(ordered, applied, i, n)
      invariant (db.state, completed) == Reached(db.effect, s, pending, n)
      invariant db.saved == old(db.saved) && db.failures == old(db.failures)
    {
      UpToNext(ordered, applied, i, n);
      if ordered[i].version !in applied {
        ReachedNext(db.effect, s, pending, n);
        var trouble := ApplyMigration(db, ordered[i]);
        if trouble.Some? {
          return Failure(trouble.value);
        }
        completed, n := completed + [ordered[i].version], n + 1;
      }
      i := i + 1;
    }
    r := Success(completed);
  }

  /** A run succeeds, or is refused, exactly when every call on the connection succeeded. */
  method RunEmbedded<D(0)>(db: Database<D>, bundle: seq<Migration>) returns (r: Result<seq<int>, Trouble>)
    modifies db
    ensures var s := old(db.state);
            match r
            case Success(completed) =>
              && Refuses(bundle, s) == None
              && db.state == Uninterrupted(db.effect, bundle, s) && db.saved == old(db.saved)
              && completed == VersionsOf(Pending(bundle, Ready(s)))
            case Failure(Refused(refusal)) =>
              && Refuses(bundle, s) == Some(refusal) && db.saved == old(db.saved)
              && db.state == if BundleProblem(bundle).Some? || !ReadyFor(s.columns) then s else Ready(s)
            case Failure(ConnectionFailed) =>
              BundleProblem(bundle) == None && db.state in {s, Ready(s)} && db.saved == old(db.saved)
            case Failure(trouble) =>
              Refuses(bundle, s) == None && LeftAt(db, Pending(bundle, Ready(s)), Ready(s), old(db.saved), trouble)
    ensures r.Success? || r.error.Refused? <==> db.failures == old(db.failures)
    ensures db.failures >= old(db.failures)
  {
    var bad := CheckVersions(VersionsOf(bundle));
    if bad.Some? {
      var version := bundle[bad.value].version;
      return Failure(Refused(if Safe(version) then DuplicateVersion(version) else BadShape));
    }
    var ordered := SortBy(VersionOf, bundle);
    var trouble := EnsureLedger(db);
    if trouble.Some? {
      return Failure(trouble.value);
    }
    ghost var ready := db.state;
    var read := db.ReadLedger();
    if read.None? {
      return Failure(ConnectionFailed);
    }
    var rows := read.value;
    bad := CheckVersions(RowVersions(rows));
    if bad.Some? {
      return Failure(Refused(BadShape));
    }
    var refusal := VerifyLedger(rows, bundle);
    if refusal.Some? {
      return Failure(Refused(refusal.value));
    }
    SortedVersions(ready.rows);
    r := ApplyPending(db, ordered, rows);
  }
}
