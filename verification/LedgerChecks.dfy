/**
 * What the asynchronous runner's checks mean for the ledger and the migrations, in terms of the checksums
 * themselves; what applying leaves in ledger and data; and what one down step does.
 */
module LedgerChecks {
  import opened Wrappers
  import opened Sequences
  import opened Sorting
  import opened Texts
  import opened Versions
  import opened Runner
  import opened RunnerFacts

  /**
   * A row that has a checksum is vouched for when the connection computes just that one from the migration
   * of its version, if there is one.
   */
  ghost predicate Vouched(engine: Engine, ms: seq<Migration>, r: Row) {
    forall m | m in ms && m.version == r.version && r.checksum.Some? ::
      engine.checksum.Some? && var compute := engine.checksum.value; compute(m.up) == r.checksum.value
  }

  lemma NoTroubleMeansVouched(engine: Engine, ms: seq<Migration>, r: Row)
    requires DistinctBy(VersionOf, ms)
    ensures RowTrouble(engine, ms, r).None? <==> Vouched(engine, ms, r)
    ensures RowTrouble(engine, ms, r).Some? ==>
              RowTrouble(engine, ms, r).value
              == if engine.checksum.None? then CannotVerify(r.version) else Edited(r.version)
  {
    FoundIsDefined(ms, r.version);
    forall m | m in ms && m.version == r.version
      ensures Find(ms, r.version) == Some(m)
    {
      FindUnique(ms, m);
    }
  }

  lemma VersionsPassWhen(ms: seq<Migration>)
    ensures VersionTrouble(ms).None? <==> DistinctBy(VersionOf, ms) && forall m | m in ms :: Safe(m.version)
  {
    var versions := VersionsOf(ms);
    NoneIsBadWhen(versions);
    assert Distinct(versions) <==> DistinctBy(VersionOf, ms) by {
      assert forall i | 0 <= i < |ms| :: versions[i] == VersionOf(ms[i]);
    }
    assert forall v :: v in versions ==> exists m :: m in ms && m.version == v;
    forall m | m in ms
      ensures m.version in versions
    {
      var i :| 0 <= i < |ms| && ms[i] == m;
      assert versions[i] == m.version;
    }
  }

  /** Every operation goes ahead exactly when the versions are in order and every checksum is the recorded one. */
  lemma PassesExactly(engine: Engine, ms: seq<Migration>, rows: seq<Row>)
    ensures Check(engine, ms, rows).None?
            <==> && DistinctBy(VersionOf, ms) && (forall m | m in ms :: Safe(m.version))
                 && forall r | r in rows :: Vouched(engine, ms, r)
  {
    hide VersionTrouble, LedgerTrouble, RowTrouble, Vouched;
    VersionsPassWhen(ms);
    LedgerVerifiesWhen(engine, ms, rows);
    if DistinctBy(VersionOf, ms) {
      forall r | r in rows
        ensures RowTrouble(engine, ms, r).None? <==> Vouched(engine, ms, r)
      {
        NoTroubleMeansVouched(engine, ms, r);
      }
    }
  }

  /** The first row, in ledger order, that is not vouched for. */
  ghost predicate FirstUnvouched(engine: Engine, ms: seq<Migration>, rows: seq<Row>, version: int) {
    exists i :: 0 <= i < |rows| && rows[i].version == version && !Vouched(engine, ms, rows[i])
                && forall j | 0 <= j < i :: Vouched(engine, ms, rows[j])
  }

  lemma AllVouchedBefore(engine: Engine, ms: seq<Migration>, rows: seq<Row>)
    requires DistinctBy(VersionOf, ms) && rows != [] && LedgerTrouble(engine, ms, rows[..|rows| - 1]).None?
    ensures forall j | 0 <= j < |rows| - 1 :: Vouched(engine, ms, rows[j])
  {
    hide RowTrouble, Vouched;
    LedgerVerifiesWhen(engine, ms, rows[..|rows| - 1]);
    forall j | 0 <= j < |rows| - 1
      ensures Vouched(engine, ms, rows[j])
    {
      assert rows[j] in rows[..|rows| - 1];
      NoTroubleMeansVouched(engine, ms, rows[j]);
    }
  }

  lemma {:induction false} LedgerTroubleIs(engine: Engine, ms: seq<Migration>, rows: seq<Row>)
    requires DistinctBy(VersionOf, ms)
    ensures match LedgerTrouble(engine, ms, rows)
            case None => true
            case Some(trouble) =>
              && (trouble.Edited? || trouble.CannotVerify?) && (trouble.CannotVerify? <==> engine.checksum.None?)
              && FirstUnvouched(engine, ms, rows, trouble.version)
  {
    hide RowTrouble, Vouched;
    if rows != [] {
      var k := |rows| - 1;
      LedgerTroubleIs(engine, ms, rows[..k]);
      NoTroubleMeansVouched(engine, ms, rows[k]);
      if LedgerTrouble(engine, ms, rows[..k]).Some? {
        var version := LedgerTrouble(engine, ms, rows[..k]).value.version;
        var i :| 0 <= i < k && rows[..k][i].version == version && !Vouched(engine, ms, rows[..k][i])
                 && forall j | 0 <= j < i :: Vouched(engine, ms, rows[..k][j]);
        assert forall j | 0 <= j < i :: rows[j] == rows[..k][j];
      } else {
        AllVouchedBefore(engine, ms, rows);
      }
    }
  }

  /** The first version, in the order given, that is no safe integer or a repetition. */
  lemma VersionTroubleIs(ms: seq<Migration>)
    ensures match VersionTrouble(ms)
            case None => true
            case Some(trouble) =>
              exists i :: && 0 <= i < |ms|
                          && DistinctBy(VersionOf, ms[..i]) && (forall j | 0 <= j < i :: Safe(ms[j].version))
                          && if Safe(ms[i].version)
                             then trouble == DuplicateVersion(ms[i].version)
                                  && exists j :: 0 <= j < i && ms[j].version == ms[i].version
                             else trouble == UnsafeVersion
  {
    var versions := VersionsOf(ms);
    FirstBadIs(versions);
    if FirstBad(versions).Some? {
      var i := FirstBad(versions).value;
      forall j, k | 0 <= j < k < i
        ensures VersionOf(ms[..i][j]) != VersionOf(ms[..i][k])
      {
        assert versions[j] != versions[k];
      }
    }
  }

  /** Which refusal it is: of the versions first, then of the ledger. */
  lemma RefusalsAreNamed(engine: Engine, ms: seq<Migration>, rows: seq<Row>)
    ensures match Check(engine, ms, rows)
            case None => true
            case Some(UnsafeVersion) => exists m :: m in ms && !Safe(m.version)
            case Some(DuplicateVersion(v)) =>
              exists i, j :: 0 <= i < j < |ms| && ms[i].version == ms[j].version == v
            case Some(Edited(v)) =>
              && DistinctBy(VersionOf, ms) && (forall m | m in ms :: Safe(m.version))
              && engine.checksum.Some? && FirstUnvouched(engine, ms, rows, v)
            case Some(CannotVerify(v)) =>
              && DistinctBy(VersionOf, ms) && (forall m | m in ms :: Safe(m.version))
              && engine.checksum.None? && FirstUnvouched(engine, ms, rows, v)
            case _ => false
  {
    hide FirstUnvouched, LedgerTrouble;
    VersionsPassWhen(ms);
    VersionTroubleIs(ms);
    if VersionTrouble(ms).None? {
      LedgerTroubleIs(engine, ms, rows);
    }
  }

  // ---- what applying leaves behind ----

  function Ups(ms: seq<Migration>): seq<string>
  {
    if ms == [] then [] else Ups(ms[..|ms| - 1]) + [ms[|ms| - 1].up]
  }

  /** Applying runs the up texts, in order, and nothing else. */
  lemma {:induction false} ApplyingRunsTheTexts<D>(engine: Engine<D>, s: State<D>, ms: seq<Migration>)
    ensures ApplyAll(engine, s, ms).data == Folded(engine.effect, Ups(ms), s.data)
  {
    if ms != [] {
      ApplyingRunsTheTexts(engine, s, ms[..|ms| - 1]);
      assert Ups(ms)[..|Ups(ms)| - 1] == Ups(ms[..|ms| - 1]);
    }
  }

  /** The row a migration leaves: its version, its name, and its checksum if the connection computes any. */
  ghost predicate Records(engine: Engine, m: Migration, r: Row) {
    && r.version == m.version && r.name == m.name
    && (engine.checksum.None? <==> r.checksum.None?)
    && (r.checksum.Some? ==> var compute := engine.checksum.value; r.checksum.value == compute(m.up))
  }

  lemma RecordsOnce(engine: Engine, m: Migration, r: Row)
    ensures Records(engine, m, r) <==> r == RowOf(engine, m)
  {
  }

  /** After up the ledger is what it was and, behind it, one row for each pending migration. */
  lemma {:induction false} LedgerAfterUp<D>(engine: Engine<D>, s: State<D>, ms: seq<Migration>)
    ensures var rows := ApplyAll(engine, s, ms).rows;
            && s.rows <= rows && |rows| == |s.rows| + |ms|
            && forall i | 0 <= i < |ms| :: Records(engine, ms[i], rows[|s.rows| + i])
  {
    if ms != [] {
      var k := |ms| - 1;
      LedgerAfterUp(engine, s, ms[..k]);
      assert forall i | 0 <= i < k :: ms[..k][i] == ms[i];
    }
  }

  /** A migration edited after it was applied on a connection with checksums is refused from then on. */
  lemma EditsAreRefused<D>(engine: Engine<D>, ms: seq<Migration>, s: State<D>, edited: seq<Migration>, first: Migration,
                           second: Migration)
    requires DistinctBy(VersionOf, ms) && engine.checksum.Some? && first in Pending(ms, s.rows)
    requires second in edited && second.version == first.version
    requires var compute := engine.checksum.value; compute(second.up) != compute(first.up)
    ensures Check(engine, edited, ApplyAll(engine, s, Pending(ms, s.rows)).rows).Some?
  {
    hide ApplyAll, Pending, Check;
    var pending := Pending(ms, s.rows);
    var rows := ApplyAll(engine, s, pending).rows;
    LedgerAfterUp(engine, s, pending);
    var i :| 0 <= i < |pending| && pending[i] == first;
    var r := rows[|s.rows| + i];
    assert r in rows && !Vouched(engine, edited, r);
    PassesExactly(engine, edited, rows);
  }

  // ---- one step down ----

  /** The row of a version leaves the ledger, all others stay in their order. */
  ghost predicate RowLeaves(rows: seq<Row>, version: int, after: seq<Row>) {
    exists i :: 0 <= i < |rows| && rows[i].version == version && (forall j | 0 <= j < i :: rows[j].version != version)
                && after == rows[..i] + rows[i + 1..]
  }

  lemma OneTaken(first: Row, rest: seq<Row>, i: nat)
    requires i < |rest|
    ensures [first] + (rest[..i] + rest[i + 1..]) == ([first] + rest)[..i + 1] + ([first] + rest)[i + 2..]
  {
  }

  lemma LeavesLater(first: Row, rest: seq<Row>, version: int, after: seq<Row>)
    requires first.version != version && RowLeaves(rest, version, after)
    ensures RowLeaves([first] + rest, version, [first] + after)
  {
    var i :| 0 <= i < |rest| && rest[i].version == version && (forall j | 0 <= j < i :: rest[j].version != version)
             && after == rest[..i] + rest[i + 1..];
    var rows := [first] + rest;
    OneTaken(first, rest, i);
    assert rows[i + 1] == rest[i];
  }

  lemma {:induction false} UnrecordLeaves(rows: seq<Row>, version: int)
    requires Recorded(rows, version)
    ensures RowLeaves(rows, version, Unrecord(rows, version))
  {
    if rows[0].version == version {
      assert rows[..0] + rows[1..] == rows[1..];
    } else {
      hide RowLeaves;
      assert rows == [rows[0]] + rows[1..];
      UnrecordLeaves(rows[1..], version);
      LeavesLater(rows[0], rows[1..], version, Unrecord(rows[1..], version));
    }
  }

  /**
   * One step down, once the checks have passed: the greatest recorded version is reverted by its own down
   * text if its migration is there and has one, and is named otherwise.
   */
  lemma DownDoes<D>(engine: Engine<D>, ms: seq<Migration>, s: State<D>)
    requires Check(engine, ms, s.rows).None?
    ensures var (r, after) := Down(engine, ms, s);
            if s.rows == [] then r == Success(None) && after == s
            else
              exists top :: Recorded(s.rows, top) && (forall x | x in s.rows :: x.version <= top) &&
                if !Defined(ms, top) then r == Failure(NoDefinition(top)) && after == s
                else
                  exists m :: m in ms && m.version == top &&
                    if Blank(m.down) then r == Failure(NoDownSection(top)) && after == s
                    else && r == Success(Some(top)) && after.data == engine.effect(m.down, s.data)
                         && RowLeaves(s.rows, top, after.rows)
  {
    hide Check, RowLeaves;
    LatestIsGreatest(s.rows);
    if s.rows != [] {
      var top := Latest(s.rows).value;
      FoundIsDefined(ms, top);
      UnrecordLeaves(s.rows, top);
      assert Recorded(s.rows, top);
    }
  }
}
