/** The asynchronous runner at work on a connection, any of whose calls may fail. */
module MigrationRunner {
  import opened Wrappers
  import opened Sorting
  import opened Texts
  import opened Versions
  import opened Runner

  /** A database behind a connection; with transactions, a failed migration leaves it as it was. */
  class Connection<!D(0)> {
    const engine: Engine<D>
    const transactional: bool
    var state: State<D>
    /** How many calls have failed. */
    ghost var failures: nat

    constructor (engine: Engine<D>, transactional: bool, state: State<D>)
      ensures this.engine == engine && this.transactional == transactional && this.state == state
    {
      this.engine, this.transactional, this.state := engine, transactional, state;
    }

    /** Whether the call just made succeeds; creating the ledger table, where it exists, is no more than that. */
    method Try() returns (ok: bool)
      modifies this`failures
      ensures failures == old(failures) + if ok then 0 else 1
    {
      ok := *;
      if !ok {
        failures := failures + 1;
      }
    }

    method ReadLedger() returns (rows: Option<seq<Row>>)
      modifies this`failures
      ensures rows.Some? ==> rows.value == state.rows
      ensures failures == old(failures) + if rows.Some? then 0 else 1
    {
      var ok := Try();
      rows := if ok then Some(state.rows) else None;
    }

    method Checksum(up: string) returns (checksum: Option<string>)
      requires engine.checksum.Some?
      modifies this`failures
      ensures checksum.Some? ==> var compute := engine.checksum.value; checksum.value == compute(up)
      ensures failures == old(failures) + if checksum.Some? then 0 else 1
    {
      var ok := Try();
      var compute := engine.checksum.value;
      checksum := if ok then Some(compute(up)) else None;
    }

    /** SQL that fails may have changed some of the data. */
    method Execute(sql: string) returns (ok: bool)
      modifies this
      ensures state.rows == old(state.rows)
      ensures ok ==> state.data == engine.effect(sql, old(state.data))
      ensures failures == old(failures) + if ok then 0 else 1
    {
      ok := Try();
      if ok {
        state := state.(data := engine.effect(sql, state.data));
      } else {
        var partial: D := *;
        state := state.(data := partial);
      }
    }

    method RecordApplied(row: Row) returns (ok: bool)
      modifies this
      ensures state == if ok then old(state).(rows := old(state).rows + [row]) else old(state)
      ensures failures == old(failures) + if ok then 0 else 1
    {
      ok := Try();
      if ok {
        state := state.(rows := state.rows + [row]);
      }
    }

    method RecordReverted(version: int) returns (ok: bool)
      modifies this
      ensures state == if ok then old(state).(rows := Unrecord(old(state).rows, version)) else old(state)
      ensures failures == old(failures) + if ok then 0 else 1
    {
      ok := Try();
      if ok {
        state := state.(rows := Unrecord(state.rows, version));
      }
    }

    /** The end of a transaction: its changes stay when it succeeded and the commit did, else they are taken back. */
    method Finish(before: State<D>, ok: bool) returns (kept: bool)
      modifies this
      ensures kept ==> ok && state == old(state)
      ensures !kept ==> state == if transactional then before else old(state)
      ensures !transactional ==> kept == ok
      ensures if kept || !ok then failures == old(failures) else failures > old(failures)
    {
      kept := ok;
      if ok && transactional {
        kept := Try();
      }
      if !kept && transactional {
        state := before;
      }
    }
  }

  method CheckMigrations(ms: seq<Migration>) returns (trouble: Option<Trouble>)
    ensures trouble == VersionTrouble(ms)
  {
    var bad := CheckVersions(VersionsOf(ms));
    if bad.Some? {
      return Some(if Safe(ms[bad.value].version) then DuplicateVersion(ms[bad.value].version) else UnsafeVersion);
    }
    return None;
  }

  lemma LedgerSnoc(engine: Engine, ms: seq<Migration>, rows: seq<Row>, i: nat)
    requires i < |rows|
    ensures LedgerTrouble(engine, ms, rows[..i + 1]) ==
            var earlier := LedgerTrouble(engine, ms, rows[..i]);
            if earlier.Some? then earlier else RowTrouble(engine, ms, rows[i])
  {
    assert rows[..i + 1][..i] == rows[..i];
  }

  lemma {:induction false} TroubleStaysFirst(engine: Engine, ms: seq<Migration>, rows: seq<Row>, k: nat)
    requires k <= |rows| && LedgerTrouble(engine, ms, rows[..k]).Some?
    ensures LedgerTrouble(engine, ms, rows) == LedgerTrouble(engine, ms, rows[..k])
    decreases |rows|
  {
    if k == |rows| {
      assert rows[..k] == rows;
    } else {
      assert rows[..|rows| - 1][..k] == rows[..k];
      TroubleStaysFirst(engine, ms, rows[..|rows| - 1], k);
    }
  }

  /** The ledger's rows once every checksum has been compared, or the first trouble. */
  method VerifyLedger<D(0)>(db: Connection<D>, ms: seq<Migration>) returns (r: Result<seq<Row>, Trouble>)
    modifies db`failures
    ensures match r
            case Success(rows) => rows == db.state.rows && LedgerTrouble(db.engine, ms, rows) == None
            case Failure(trouble) =>
              trouble == ConnectionFailed || LedgerTrouble(db.engine, ms, db.state.rows) == Some(trouble)
    ensures r == Failure(ConnectionFailed) <==> db.failures > old(db.failures)
    ensures db.failures >= old(db.failures)
  {
    var ok := db.Try();
    if !ok {
      return Failure(ConnectionFailed);
    }
    var read := db.ReadLedger();
    if read.None? {
      return Failure(ConnectionFailed);
    }
    var rows := read.value;
    assert LedgerTrouble(db.engine, ms, rows[..0]) == None;
    hide LedgerTrouble;
    var i := 0;
    while i < |rows|
      invariant i <= |rows| && LedgerTrouble(db.engine, ms, rows[..i]) == None && db.failures == old(db.failures)
    {
      LedgerSnoc(db.engine, ms, rows, i);
      var row := rows[i];
      if row.checksum.Some? {
        var m := Find(ms, row.version);
        if m.Some? {
          if db.engine.checksum.None? {
            TroubleStaysFirst(db.engine, ms, rows, i + 1);
            return Failure(CannotVerify(row.version));
          }
          var checksum := db.Checksum(m.value.up);
          if checksum.None? {
            return Failure(ConnectionFailed);
          }
          if checksum.value != row.checksum.value {
            TroubleStaysFirst(db.engine, ms, rows, i + 1);
            return Failure(Edited(row.version));
          }
        }
      }
      i := i + 1;
    }
    assert rows[..i] == rows;
    return Success(rows);
  }

  // ---- up ----

  method Apply<D(0)>(db: Connection<D>, m: Migration) returns (ok: bool)
    modifies db
    ensures ok ==> db.state == ApplyOne(db.engine, old(db.state), m)
    ensures !ok ==> db.state.rows == old(db.state).rows
    ensures !ok && db.transactional ==> db.state == old(db.state)
    ensures if ok then db.failures == old(db.failures) else db.failures > old(db.failures)
  {
    var before := db.state;
    ok := db.Execute(m.up);
    if ok {
      ok := db.RecordApplied(RowOf(db.engine, m));
    }
    ok := db.Finish(before, ok);
  }

  lemma AppliedSnoc<D>(engine: Engine<D>, s: State<D>, pending: seq<Migration>, i: nat)
    requires i < |pending|
    ensures ApplyAll(engine, s, pending[..i + 1]) == ApplyOne(engine, ApplyAll(engine, s, pending[..i]), pending[i])
    ensures VersionsOf(pending[..i + 1]) == VersionsOf(pending[..i]) + [pending[i].version]
  {
    assert pending[..i + 1][..i] == pending[..i];
  }

  /** Some of the pending migrations are applied, in order, and nothing else is. */
  ghost predicate AppliedSome<D>(engine: Engine<D>, s: State<D>, pending: seq<Migration>, after: State<D>) {
    exists k | 0 <= k < |pending| :: after == ApplyAll(engine, s, pending[..k])
  }

  /** Just the migrations before the one that failed are recorded; with transactions only they took effect. */
  ghost predicate StoppedAt<D>(engine: Engine<D>, s: State<D>, pending: seq<Migration>, version: int,
                               after: State<D>, transactional: bool) {
    exists k | 0 <= k < |pending| ::
      && pending[k].version == version
      && after.rows == ApplyAll(engine, s, pending[..k]).rows
      && (transactional ==> after == ApplyAll(engine, s, pending[..k]))
  }

  method ApplyPending<D(0)>(db: Connection<D>, pending: seq<Migration>) returns (r: Result<seq<int>, Trouble>)
    modifies db
    ensures var s := old(db.state);
            match r
            case Success(done) => done == VersionsOf(pending) && db.state == ApplyAll(db.engine, s, pending)
            case Failure(ConnectionFailed) => AppliedSome(db.engine, s, pending, db.state)
            case Failure(NotApplied(version)) => StoppedAt(db.engine, s, pending, version, db.state, db.transactional)
            case Failure(_) => false
    ensures r.Failure? <==> db.failures > old(db.failures)
    ensures db.failures >= old(db.failures)
  {
    ghost var s := db.state;
    var done: seq<int> := [];
    assert ApplyAll(db.engine, s, []) == s && VersionsOf([]) == [];
    hide ApplyAll, ApplyOne, VersionsOf;
    var i := 0;
    while i < |pending|
      invariant i <= |pending| && db.failures == old(db.failures)
      invariant db.state == ApplyAll(db.engine, s, pending[..i]) && done == VersionsOf(pending[..i])
    {
      AppliedSnoc(db.engine, s, pending, i);
      if db.engine.checksum.Some? {
        var checksum := db.Checksum(pending[i].up);
        if checksum.None? {
          assert AppliedSome(db.engine, s, pending, db.state);
          return Failure(ConnectionFailed);
        }
      }
      var ok := Apply(db, pending[i]);
      if !ok {
        assert StoppedAt(db.engine, s, pending, pending[i].version, db.state, db.transactional);
        return Failure(NotApplied(pending[i].version));
      }
      done := done + [pending[i].version];
      i := i + 1;
    }
    assert pending[..i] == pending;
    r := Success(done);
  }

  lemma {:induction false} LedgerMakesNoCall(engine: Engine, ms: seq<Migration>, rows: seq<Row>)
    ensures LedgerTrouble(engine, ms, rows).Some? ==> !FromCall(LedgerTrouble(engine, ms, rows).value)
  {
    if rows != [] {
      LedgerMakesNoCall(engine, ms, rows[..|rows| - 1]);
    }
  }

  /** What the checks report never comes from a failed call. */
  lemma ChecksMakeNoCall(engine: Engine, ms: seq<Migration>, rows: seq<Row>)
    ensures Check(engine, ms, rows).Some? ==> !FromCall(Check(engine, ms, rows).value)
    ensures LedgerTrouble(engine, ms, rows).Some? ==> !FromCall(LedgerTrouble(engine, ms, rows).value)
  {
    LedgerMakesNoCall(engine, ms, rows);
  }

  /**
   * Applies all that is pending, in order. A migration that fails is not recorded; a failed
   * checksum leaves exactly the migrations before it.
   */
  method Up<D(0)>(db: Connection<D>, ms: seq<Migration>) returns (r: Result<seq<int>, Trouble>)
    modifies db
    ensures var s, pending := old(db.state), Pending(ms, old(db.state).rows);
            match r
            case Success(done) =>
              && Check(db.engine, ms, s.rows) == None
              && done == VersionsOf(pending) && db.state == ApplyAll(db.engine, s, pending)
            case Failure(ConnectionFailed) =>
              && VersionTrouble(ms) == None
              && (db.state == s || (Check(db.engine, ms, s.rows) == None
                && AppliedSome(db.engine, s, pending, db.state)))
            case Failure(NotApplied(version)) =>
              && Check(db.engine, ms, s.rows) == None
              && StoppedAt(db.engine, s, pending, version, db.state, db.transactional)
            case Failure(trouble) => Check(db.engine, ms, s.rows) == Some(trouble) && db.state == s
    ensures r.Failure? && FromCall(r.error) <==> db.failures > old(db.failures)
    ensures db.failures >= old(db.failures)
  {
    ChecksMakeNoCall(db.engine, ms, db.state.rows);
    var trouble := CheckMigrations(ms);
    if trouble.Some? {
      return Failure(trouble.value);
    }
    var ledger := VerifyLedger(db, ms);
    if ledger.Failure? {
      return Failure(ledger.error);
    }
    var pending := Pending(ms, ledger.value);
    assert Check(db.engine, ms, db.state.rows) == None;
    hide Pending, Check, LedgerTrouble, VersionTrouble, ApplyAll;
    r := ApplyPending(db, pending);
  }

  // ---- down ----

  method Revert<D(0)>(db: Connection<D>, m: Migration) returns (ok: bool)
    modifies db
    ensures ok ==> db.state == RevertOne(db.engine, old(db.state), m)
    ensures !ok ==> db.state.rows == old(db.state).rows
    ensures !ok && db.transactional ==> db.state == old(db.state)
    ensures if ok then db.failures == old(db.failures) else db.failures > old(db.failures)
  {
    var before := db.state;
    ok := db.Execute(m.down);
    if ok {
      ok := db.RecordReverted(m.version);
    }
    ok := db.Finish(before, ok);
  }

  /**
   * Reverting `version` was due in `s` and did not happen: its row is still there, and with transactions its effect
   * too.
   */
  ghost predicate RevertFailed<D(0)>(db: Connection<D>, ms: seq<Migration>, s: State<D>, version: int)
    reads db
  {
    && Down(db.engine, ms, s).0 == Success(Some(version))
    && db.state.rows == s.rows && (db.transactional ==> db.state == s)
  }

  method RevertLatest<D(0)>(db: Connection<D>, ms: seq<Migration>) returns (r: Result<Option<int>, Trouble>)
    modifies db
    ensures match r
            case Failure(ConnectionFailed) => VersionTrouble(ms) == None && db.state == old(db.state)
            case Failure(NotReverted(version)) => RevertFailed(db, ms, old(db.state), version)
            case _ => (r, db.state) == Down(db.engine, ms, old(db.state))
    ensures r.Failure? && FromCall(r.error) <==> db.failures > old(db.failures)
    ensures db.failures >= old(db.failures)
  {
    ChecksMakeNoCall(db.engine, ms, db.state.rows);
    var trouble := CheckMigrations(ms);
    if trouble.Some? {
      return Failure(trouble.value);
    }
    var ledger := VerifyLedger(db, ms);
    if ledger.Failure? {
      return Failure(ledger.error);
    }
    var latest := Latest(ledger.value);
    if latest.None? {
      return Success(None);
    }
    var m := Find(ms, latest.value);
    FoundIsDefined(ms, latest.value);
    if m.None? {
      return Failure(NoDefinition(latest.value));
    }
    if Blank(m.value.down) {
      return Failure(NoDownSection(latest.value));
    }
    var ok := Revert(db, m.value);
    return if ok then Success(latest) else Failure(NotReverted(latest.value));
  }

  // ---- status, downTo ----

  method ListStatus<D(0)>(db: Connection<D>, ms: seq<Migration>) returns (r: Result<seq<Status>, Trouble>)
    modifies db`failures
    ensures match r
            case Success(listed) =>
              && Check(db.engine, ms, db.state.rows) == None
              && listed == StatusOf(SortBy(VersionOf, ms), db.state.rows)
            case Failure(ConnectionFailed) => VersionTrouble(ms) == None
            case Failure(trouble) => Check(db.engine, ms, db.state.rows) == Some(trouble)
    ensures r == Failure(ConnectionFailed) <==> db.failures > old(db.failures)
    ensures db.failures >= old(db.failures)
  {
    ChecksMakeNoCall(db.engine, ms, db.state.rows);
    var trouble := CheckMigrations(ms);
    if trouble.Some? {
      return Failure(trouble.value);
    }
    var ledger := VerifyLedger(db, ms);
    if ledger.Failure? {
      return Failure(ledger.error);
    }
    return Success(StatusOf(SortBy(VersionOf, ms), ledger.value));
  }

  /** What a call returns that reverted some versions first and then goes on like `rest`. */
  function Continued<D>(reverted: seq<int>, rest: (Result<seq<int>, Trouble>, State<D>))
    : (Result<seq<int>, Trouble>, State<D>)
  {
    (if rest.0.Success? then Success(reverted + rest.0.value) else rest.0, rest.1)
  }

  lemma StartContinued<D>(rest: (Result<seq<int>, Trouble>, State<D>))
    ensures Continued([], rest) == rest
  {
    if rest.0.Success? {
      assert [] + rest.0.value == rest.0.value;
    }
  }

  lemma ContinuedTwice<D>(a: seq<int>, b: seq<int>, rest: (Result<seq<int>, Trouble>, State<D>))
    ensures Continued(a, Continued(b, rest)) == Continued(a + b, rest)
  {
    if rest.0.Success? {
      assert a + (b + rest.0.value) == a + b + rest.0.value;
    }
  }

  lemma LastTurn<D>(engine: Engine<D>, ms: seq<Migration>, s: State<D>, target: int)
    ensures Check(engine, ms, s.rows).Some? ==>
              DownTo(engine, ms, s, target) == (Failure(Check(engine, ms, s.rows).value), s)
    ensures Check(engine, ms, s.rows).None? && Finished(ms, s.rows, target) ==>
              DownTo(engine, ms, s, target) == (Success([]), s)
  {
  }

  /** One turn of the loop that goes on to revert. */
  lemma OneTurn<D>(engine: Engine<D>, ms: seq<Migration>, s: State<D>, target: int)
    requires Check(engine, ms, s.rows).None? && !Finished(ms, s.rows, target)
    ensures var (r, after) := Down(engine, ms, s);
            && (r.Success? && r.value.Some? ==> |after.rows| < |s.rows|)
            && DownTo(engine, ms, s, target)
               == match r
                  case Failure(trouble) => (Failure(trouble), after)
                  case Success(None) => (Success([]), after)
                  case Success(Some(version)) => Continued([version], DownTo(engine, ms, after, target))
  {
    DownShrinks(engine, ms, s);
  }

  /** After reverting `reverted`, the loop is at `s`, from where it ends as it would have ended. */
  ghost predicate OnTheWay<D>(engine: Engine<D>, ms: seq<Migration>, start: State<D>, target: int,
                              reverted: seq<int>, s: State<D>) {
    DownTo(engine, ms, start, target) == Continued(reverted, DownTo(engine, ms, s, target))
  }

  /**
   * Terminates: every turn removes a ledger row. Unless a call fails it does what DownTo says; if
   * one does, what was reverted so far stays reverted, and calling it again finishes the job (when
   * the failed call ran SQL without a transaction, from the ledger that is left).
   */
  method RollbackTo<D(0)>(db: Connection<D>, ms: seq<Migration>, target: int) returns (r: Result<seq<int>, Trouble>)
    modifies db
    ensures match r
            case Failure(ConnectionFailed) =>
              exists reverted :: OnTheWay(db.engine, ms, old(db.state), target, reverted, db.state)
            case Failure(NotReverted(version)) =>
              exists reverted, s ::
                && OnTheWay(db.engine, ms, old(db.state), target, reverted, s)
                && RevertFailed(db, ms, s, version)
            case _ => (r, db.state) == DownTo(db.engine, ms, old(db.state), target)
    ensures r.Failure? && FromCall(r.error) <==> db.failures > old(db.failures)
    ensures db.failures >= old(db.failures)
  {
    hide Down, DownTo, Check, SortBy, StatusOf, AppliedVersions;
    var reverted: seq<int> := [];
    ghost var s := db.state;
    StartContinued(DownTo(db.engine, ms, s, target));
    while true
      invariant OnTheWay(db.engine, ms, s, target, reverted, db.state) && db.failures == old(db.failures)
      decreases |db.state.rows|
    {
      assert reverted + [] == reverted;
      LastTurn(db.engine, ms, db.state, target);
      ChecksMakeNoCall(db.engine, ms, db.state.rows);
      var listed := ListStatus(db, ms);
      if listed.Failure? {
        return Failure(listed.error);
      }
      var applied := AppliedVersions(listed.value);
      if applied == [] || applied[|applied| - 1] <= target {
        assert Finished(ms, db.state.rows, target);
        return Success(reverted);
      }
      OneTurn(db.engine, ms, db.state, target);
      ghost var here := db.state;
      var version := RevertLatest(db, ms);
      if version.Failure? {
        assert OnTheWay(db.engine, ms, s, target, reverted, here);
        return Failure(version.error);
      }
      if version.value.None? {
        return Success(reverted);
      }
      ContinuedTwice(reverted, [version.value.value], DownTo(db.engine, ms, db.state, target));
      reverted := reverted + [version.value.value];
    }
  }
}
