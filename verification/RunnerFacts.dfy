/** What a rollback to a target version reverts, exactly when it succeeds, and that it undoes an upgrade. */
module RunnerFacts {
  import opened Wrappers
  import opened Sequences
  import opened Sorting
  import opened Texts
  import opened Versions
  import opened Runner

  // ---- status ----

  lemma {:induction false} AppliedInStatus(listed: seq<Status>, v: int)
    ensures v in AppliedVersions(listed) <==> exists x | x in listed :: x.applied && x.version == v
  {
    if listed != [] {
      var k := |listed| - 1;
      AppliedInStatus(listed[..k], v);
      assert listed == listed[..k] + [listed[k]];
    }
  }

  ghost predicate Rising(versions: seq<int>) {
    forall i, j | 0 <= i < j < |versions| :: versions[i] < versions[j]
  }

  lemma RisingSnoc(versions: seq<int>, v: int)
    requires Rising(versions) && forall w | w in versions :: w < v
    ensures Rising(versions + [v])
  {
    assert forall i | 0 <= i < |versions| :: versions[i] in versions;
  }

  lemma AppliedSnoc(ordered: seq<Migration>, rows: seq<Row>)
    requires ordered != []
    ensures var k := |ordered| - 1;
            AppliedVersions(StatusOf(ordered, rows)) ==
            AppliedVersions(StatusOf(ordered[..k], rows))
            + (if Recorded(rows, ordered[k].version) then [ordered[k].version] else [])
  {
    hide Recorded;
    var k := |ordered| - 1;
    var m := ordered[k];
    var listed := StatusOf(ordered, rows);
    assert listed == StatusOf(ordered[..k], rows) + [Status(m.version, m.name, Recorded(rows, m.version))];
    assert listed[..|listed| - 1] == StatusOf(ordered[..k], rows);
  }

  lemma AscendingAt(ordered: seq<Migration>, i: nat, j: nat)
    requires Ascending(VersionOf, ordered) && i < j < |ordered|
    ensures ordered[i].version < ordered[j].version
  {
    assert VersionOf(ordered[i]) < VersionOf(ordered[j]);
  }

  lemma {:induction false} AppliedAscends(ordered: seq<Migration>, rows: seq<Row>)
    requires Ascending(VersionOf, ordered)
    ensures Rising(AppliedVersions(StatusOf(ordered, rows)))
    ensures forall v | v in AppliedVersions(StatusOf(ordered, rows)) ::
              ordered != [] && v <= ordered[|ordered| - 1].version
  {
    if ordered != [] {
      var k := |ordered| - 1;
      AscendingPrefix(VersionOf, ordered, k);
      AppliedAscends(ordered[..k], rows);
      AppliedSnoc(ordered, rows);
      hide AppliedVersions, StatusOf, Recorded, Ascending;
      var m := ordered[k];
      var before := AppliedVersions(StatusOf(ordered[..k], rows));
      forall v | v in before
        ensures v < m.version
      {
        if k > 0 {
          AscendingAt(ordered, k - 1, k);
          assert v <= ordered[..k][k - 1].version;
        }
      }
      RisingSnoc(before, m.version);
    }
  }

  lemma AppliedMembers(ms: seq<Migration>, rows: seq<Row>, v: int)
    ensures v in Applied(ms, rows) <==> Recorded(rows, v) && Defined(ms, v)
  {
    var ordered := SortBy(VersionOf, ms);
    var listed := StatusOf(ordered, rows);
    AppliedInStatus(listed, v);
    forall m
      ensures m in ordered <==> m in ms
    {
      InSorted(VersionOf, ms, m);
    }
    if v in Applied(ms, rows) {
      var i :| 0 <= i < |listed| && listed[i].applied && listed[i].version == v;
      assert ordered[i] in ordered;
    }
    if Recorded(rows, v) && Defined(ms, v) {
      var m :| m in ms && m.version == v;
      var i :| 0 <= i < |ordered| && ordered[i] == m;
      assert listed[i] in listed && listed[i].applied && listed[i].version == v;
    }
  }

  /** A version a rollback to the target is to revert. */
  predicate Above(ms: seq<Migration>, rows: seq<Row>, target: int, v: int) {
    Recorded(rows, v) && Defined(ms, v) && v > target
  }

  lemma FinishedWhen(ms: seq<Migration>, rows: seq<Row>, target: int)
    requires DistinctBy(VersionOf, ms)
    ensures Finished(ms, rows, target) <==> forall v :: !Above(ms, rows, target, v)
  {
    hide Recorded, Defined, SortBy, StatusOf, AppliedVersions, Ascending;
    var applied := Applied(ms, rows);
    SortByAscends(VersionOf, ms);
    AppliedAscends(SortBy(VersionOf, ms), rows);
    forall v
      ensures v in applied && v > target <==> Above(ms, rows, target, v)
    {
      AppliedMembers(ms, rows, v);
    }
    if applied != [] {
      var greatest := applied[|applied| - 1];
      assert greatest in applied;
      forall v | v in applied
        ensures v <= greatest
      {
        var i :| 0 <= i < |applied| && applied[i] == v;
        assert i < |applied| - 1 ==> applied[i] < greatest;
      }
      if greatest > target {
        assert Above(ms, rows, target, greatest);
      }
    }
  }

  // ---- the ledger ----

  lemma {:induction false} LedgerVerifiesWhen(engine: Engine, ms: seq<Migration>, rows: seq<Row>)
    ensures LedgerTrouble(engine, ms, rows).None? <==> forall r | r in rows :: RowTrouble(engine, ms, r).None?
  {
    if rows != [] {
      var k := |rows| - 1;
      LedgerVerifiesWhen(engine, ms, rows[..k]);
      assert rows == rows[..k] + [rows[k]];
    }
  }

  lemma {:induction false} InUnrecorded(rows: seq<Row>, version: int, r: Row)
    requires DistinctBy(RowVersion, rows)
    ensures r in Unrecord(rows, version) <==> r in rows && r.version != version
  {
    if rows != [] {
      assert rows == [rows[0]] + rows[1..];
      assert forall i | 0 < i < |rows| :: RowVersion(rows[0]) != RowVersion(rows[i]);
      if rows[0].version != version {
        InUnrecorded(rows[1..], version, r);
      }
    }
  }

  lemma {:induction false} UnrecordKeepsDistinct(rows: seq<Row>, version: int)
    requires DistinctBy(RowVersion, rows)
    ensures DistinctBy(RowVersion, Unrecord(rows, version))
  {
    if rows != [] {
      if rows[0].version != version {
        UnrecordKeepsDistinct(rows[1..], version);
        var rest := Unrecord(rows[1..], version);
        forall r | r in rest
          ensures RowVersion(r) != RowVersion(rows[0])
        {
          InUnrecorded(rows[1..], version, r);
          var i :| 0 <= i < |rows[1..]| && rows[1..][i] == r;
          assert RowVersion(rows[0]) != RowVersion(rows[i + 1]);
        }
        assert forall i | 0 <= i < |rest| :: rest[i] in rest;
      }
    }
  }

  lemma UnrecordedVersions(rows: seq<Row>, version: int, v: int)
    requires DistinctBy(RowVersion, rows)
    ensures Recorded(Unrecord(rows, version), v) <==> Recorded(rows, v) && v != version
  {
    if Recorded(Unrecord(rows, version), v) {
      var r :| r in Unrecord(rows, version) && r.version == v;
      InUnrecorded(rows, version, r);
    }
    if Recorded(rows, v) && v != version {
      var r :| r in rows && r.version == v;
      InUnrecorded(rows, version, r);
    }
  }

  lemma UnrecordKeepsCheck(engine: Engine, ms: seq<Migration>, rows: seq<Row>, version: int)
    requires DistinctBy(RowVersion, rows) && Check(engine, ms, rows).None?
    ensures Check(engine, ms, Unrecord(rows, version)).None?
  {
    LedgerVerifiesWhen(engine, ms, rows);
    LedgerVerifiesWhen(engine, ms, Unrecord(rows, version));
    forall r | r in Unrecord(rows, version)
      ensures RowTrouble(engine, ms, r).None?
    {
      InUnrecorded(rows, version, r);
    }
  }

  lemma CheckedVersionsAreDistinct(engine: Engine, ms: seq<Migration>, rows: seq<Row>)
    requires Check(engine, ms, rows).None?
    ensures DistinctBy(VersionOf, ms)
  {
    NoneIsBadWhen(VersionsOf(ms));
    forall i, j | 0 <= i < j < |ms|
      ensures VersionOf(ms[i]) != VersionOf(ms[j])
    {
      assert VersionsOf(ms)[i] != VersionsOf(ms)[j];
    }
  }

  // ---- when a rollback succeeds ----

  predicate HasDown(ms: seq<Migration>, v: int) {
    Find(ms, v).Some? && !Blank(Find(ms, v).value.down)
  }

  /**
   * Every version to revert has a down section, and no row without a definition is newer than one
   * of them.
   */
  ghost predicate CanRevert(ms: seq<Migration>, rows: seq<Row>, target: int) {
    forall v | Above(ms, rows, target, v) ::
      HasDown(ms, v) && forall r | r in rows && !Defined(ms, r.version) :: r.version < v
  }

  /** The ledger rows a rollback leaves, in their order. */
  function Kept(ms: seq<Migration>, rows: seq<Row>, target: int): seq<Row>
  {
    if rows == [] then []
    else
      (if Defined(ms, rows[0].version) && rows[0].version > target then [] else [rows[0]]) + Kept(ms, rows[1..], target)
  }

  /** The data after the down sections of the given versions, in that order. */
  function Undone<D>(engine: Engine<D>, ms: seq<Migration>, data: D, versions: seq<int>): D
  {
    if versions == [] then data
    else
      match Find(ms, versions[0])
      case None => data
      case Some(m) => Undone(engine, ms, engine.effect(m.down, data), versions[1..])
  }

  lemma UnrecordKept(ms: seq<Migration>, rows: seq<Row>, target: int, version: int)
    requires Defined(ms, version) && version > target
    ensures Kept(ms, Unrecord(rows, version), target) == Kept(ms, rows, target)
  {
    if rows != [] && rows[0].version != version {
      UnrecordKept(ms, rows[1..], target, version);
      assert Unrecord(rows, version)[1..] == Unrecord(rows[1..], version);
    }
  }

  lemma {:induction false} NothingToRevert(ms: seq<Migration>, rows: seq<Row>, target: int)
    requires forall v :: !Above(ms, rows, target, v)
    ensures Kept(ms, rows, target) == rows
  {
    if rows != [] {
      assert rows == [rows[0]] + rows[1..];
      assert Recorded(rows, rows[0].version) && !Above(ms, rows, target, rows[0].version);
      forall v
        ensures !Above(ms, rows[1..], target, v)
      {
        assert !Above(ms, rows, target, v);
        assert Recorded(rows[1..], v) ==> Recorded(rows, v);
      }
      NothingToRevert(ms, rows[1..], target);
    }
  }

  lemma UnrecordAbove(ms: seq<Migration>, rows: seq<Row>, target: int, top: int)
    requires DistinctBy(RowVersion, rows)
    ensures forall v :: Above(ms, Unrecord(rows, top), target, v) <==> Above(ms, rows, target, v) && v != top
  {
    forall v
      ensures Recorded(Unrecord(rows, top), v) <==> Recorded(rows, v) && v != top
    {
      UnrecordedVersions(rows, top, v);
    }
  }

  lemma UnrecordKeepsCanRevert(ms: seq<Migration>, rows: seq<Row>, target: int, top: int)
    requires DistinctBy(RowVersion, rows) && Above(ms, rows, target, top) && HasDown(ms, top)
    requires forall r | r in rows :: r.version <= top
    ensures CanRevert(ms, Unrecord(rows, top), target) <==> CanRevert(ms, rows, target)
  {
    UnrecordAbove(ms, rows, target, top);
    forall r
      ensures r in Unrecord(rows, top) && !Defined(ms, r.version) <==> r in rows && !Defined(ms, r.version)
    {
      InUnrecorded(rows, top, r);
    }
  }

  /** The newest row of a ledger that is not yet down to the target. */
  lemma NewestRow(ms: seq<Migration>, rows: seq<Row>, target: int)
    requires exists v :: Above(ms, rows, target, v)
    ensures Latest(rows).Some?
    ensures var top := Latest(rows).value;
            && Recorded(rows, top) && top > target && (forall r | r in rows :: r.version <= top)
            && (Find(ms, top).Some? <==> Above(ms, rows, target, top))
            && (CanRevert(ms, rows, target) ==> HasDown(ms, top))
  {
    LatestIsGreatest(rows);
    var v :| Above(ms, rows, target, v);
    var r :| r in rows && r.version == v;
    var top := Latest(rows).value;
    FoundIsDefined(ms, top);
    var newest :| newest in rows && newest.version == top;
  }

  ghost predicate Reverts<D>(engine: Engine<D>, ms: seq<Migration>, s: State<D>, target: int, reverted: seq<int>,
                             last: State<D>) {
    && (forall v :: v in reverted <==> Above(ms, s.rows, target, v))
    && (forall i, j | 0 <= i < j < |reverted| :: reverted[i] > reverted[j])
    && last.rows == Kept(ms, s.rows, target)
    && last.data == Undone(engine, ms, s.data, reverted)
  }

  lemma NothingLeft<D>(engine: Engine<D>, ms: seq<Migration>, s: State<D>, target: int)
    requires forall v :: !Above(ms, s.rows, target, v)
    ensures CanRevert(ms, s.rows, target) && Reverts(engine, ms, s, target, [], s)
  {
    NothingToRevert(ms, s.rows, target);
  }

  lemma DownOfNewest<D>(engine: Engine<D>, ms: seq<Migration>, s: State<D>, target: int, top: int)
    requires Check(engine, ms, s.rows).None? && DistinctBy(RowVersion, s.rows)
    requires Latest(s.rows) == Some(top) && top > target && Recorded(s.rows, top)
    requires forall r | r in s.rows :: r.version <= top
    ensures var (r, after) := Down(engine, ms, s);
            if HasDown(ms, top) then r == Success(Some(top)) && after == RevertOne(engine, s, Find(ms, top).value)
            else r.Failure? && (r.error == NoDefinition(top) || r.error == NoDownSection(top))
    ensures HasDown(ms, top) ==> var next := Unrecord(s.rows, top);
            && Above(ms, s.rows, target, top)
            && Check(engine, ms, next).None? && DistinctBy(RowVersion, next)
            && (CanRevert(ms, next, target) <==> CanRevert(ms, s.rows, target))
            && Find(ms, top).value.version == top
  {
    hide Check, CanRevert, Recorded, Defined;
    FoundIsDefined(ms, top);
    if HasDown(ms, top) {
      UnrecordKeepsCheck(engine, ms, s.rows, top);
      UnrecordKeepsDistinct(s.rows, top);
      UnrecordKeepsCanRevert(ms, s.rows, target, top);
    }
  }

  lemma DescendingCons(top: int, reverted: seq<int>)
    requires forall v | v in reverted :: v < top
    requires forall i, j | 0 <= i < j < |reverted| :: reverted[i] > reverted[j]
    ensures var all := [top] + reverted; forall i, j | 0 <= i < j < |all| :: all[i] > all[j]
  {
    var all := [top] + reverted;
    forall i, j | 0 <= i < j < |all|
      ensures all[i] > all[j]
    {
      assert all[j] == reverted[j - 1] && reverted[j - 1] in reverted;
      if i > 0 {
        assert all[i] == reverted[i - 1];
      }
    }
  }

  ghost predicate AllBelow(ms: seq<Migration>, rows: seq<Row>, target: int, top: int) {
    forall v | Above(ms, rows, target, v) :: v < top
  }

  lemma BelowTop(ms: seq<Migration>, rows: seq<Row>, target: int, top: int, v: int)
    requires AllBelow(ms, rows, target, top) && Above(ms, rows, target, v)
    ensures v < top
  {
    hide Above;
  }

  lemma RevertedFirst<D>(engine: Engine<D>, ms: seq<Migration>, s: State<D>, target: int, top: int,
                         reverted: seq<int>, last: State<D>)
    requires HasDown(ms, top) && Find(ms, top).value.version == top
    requires var next := RevertOne(engine, s, Find(ms, top).value);
             && Reverts(engine, ms, next, target, reverted, last)
             && (forall v :: Above(ms, next.rows, target, v) <==> Above(ms, s.rows, target, v) && v != top)
             && AllBelow(ms, next.rows, target, top)
             && Kept(ms, next.rows, target) == Kept(ms, s.rows, target)
    requires Above(ms, s.rows, target, top)
    ensures Reverts(engine, ms, s, target, [top] + reverted, last)
  {
    hide Above, AllBelow, Kept, Blank, Find;
    var all := [top] + reverted;
    var next := RevertOne(engine, s, Find(ms, top).value);
    assert last.data == Undone(engine, ms, s.data, all) by {
      assert all[1..] == reverted;
    }
    hide Undone;
    forall v
      ensures v in all <==> Above(ms, s.rows, target, v)
    {
      assert v in reverted <==> Above(ms, next.rows, target, v);
    }
    forall v | v in reverted
      ensures v < top
    {
      assert v in reverted <==> Above(ms, next.rows, target, v);
      BelowTop(ms, next.rows, target, top, v);
    }
    DescendingCons(top, reverted);
  }

  lemma RevertOneMore<D>(engine: Engine<D>, ms: seq<Migration>, s: State<D>, target: int, top: int)
    requires DistinctBy(RowVersion, s.rows) && Above(ms, s.rows, target, top) && HasDown(ms, top)
    requires forall r | r in s.rows :: r.version <= top
    ensures forall reverted, last ::
              Reverts(engine, ms, RevertOne(engine, s, Find(ms, top).value), target, reverted, last)
              ==> Reverts(engine, ms, s, target, [top] + reverted, last)
  {
    FoundIsDefined(ms, top);
    var next := RevertOne(engine, s, Find(ms, top).value);
    UnrecordAbove(ms, s.rows, target, top);
    UnrecordKept(ms, s.rows, target, top);
    forall v | Above(ms, next.rows, target, v)
      ensures v < top
    {
      var r :| r in s.rows && r.version == v;
    }
    forall reverted, last | Reverts(engine, ms, next, target, reverted, last)
      ensures Reverts(engine, ms, s, target, [top] + reverted, last)
    {
      RevertedFirst(engine, ms, s, target, top, reverted, last);
    }
  }

  /**
   * Exactly when a rollback succeeds, and what it does then: it reverts, newest first, all and only
   * the applied versions above the target that have a definition, and leaves every other row.
   */
  lemma {:induction false} DownToExactly<D>(engine: Engine<D>, ms: seq<Migration>, s: State<D>, target: int)
    requires Check(engine, ms, s.rows).None? && DistinctBy(RowVersion, s.rows)
    ensures var (r, last) := DownTo(engine, ms, s, target);
            && (r.Success? <==> CanRevert(ms, s.rows, target))
            && (r.Success? ==> Reverts(engine, ms, s, target, r.value, last))
            && (r.Failure? ==> r.error.NoDefinition? || r.error.NoDownSection?)
    decreases |s.rows|
  {
    hide Above, CanRevert, Check, HasDown, Kept, Undone, Recorded, Defined, Finished, Reverts;
    CheckedVersionsAreDistinct(engine, ms, s.rows);
    FinishedWhen(ms, s.rows, target);
    if Finished(ms, s.rows, target) {
      NothingLeft(engine, ms, s, target);
    } else {
      NewestRow(ms, s.rows, target);
      var top := Latest(s.rows).value;
      DownOfNewest(engine, ms, s, target, top);
      if HasDown(ms, top) {
        DownShrinks(engine, ms, s);
        var next := RevertOne(engine, s, Find(ms, top).value);
        DownToExactly(engine, ms, next, target);
        RevertOneMore(engine, ms, s, target, top);
        var (rest, last) := DownTo(engine, ms, next, target);
        assert DownTo(engine, ms, s, target) == (if rest.Success? then Success([top] + rest.value) else rest, last);
        if rest.Success? {
          assert Reverts(engine, ms, next, target, rest.value, last);
          assert Reverts(engine, ms, s, target, [top] + rest.value, last);
        }
      }
    }
  }

  lemma OnlyNewerRemoved(rows: seq<Row>, top: int, v: int)
    requires DistinctBy(RowVersion, rows) && forall r | r in rows :: r.version <= top
    ensures Recorded(Unrecord(rows, top), v) <==> Recorded(rows, v) && v < top
  {
    UnrecordedVersions(rows, top, v);
  }

  lemma TurnTo<D>(engine: Engine<D>, ms: seq<Migration>, s: State<D>, target: int, top: int)
    requires Check(engine, ms, s.rows).None? && !Finished(ms, s.rows, target)
    requires HasDown(ms, top) && Down(engine, ms, s) == (Success(Some(top)), RevertOne(engine, s, Find(ms, top).value))
    ensures var (rest, last) := DownTo(engine, ms, RevertOne(engine, s, Find(ms, top).value), target);
            DownTo(engine, ms, s, target) == (if rest.Success? then Success([top] + rest.value) else rest, last)
  {
    hide Down, Check, Finished, RevertOne;
    DownShrinks(engine, ms, s);
  }

  /**
   * Where a rollback that fails has stopped: at the newest row it met that has no usable down section. It
   * has done exactly what a rollback to that version does.
   */
  ghost predicate StoppedAt<D>(engine: Engine<D>, ms: seq<Migration>, s: State<D>, target: int, error: Trouble,
                               last: State<D>) {
    && (error.NoDefinition? || error.NoDownSection?)
    && Latest(last.rows) == Some(error.version) && error.version > target && Recorded(s.rows, error.version)
    && !HasDown(ms, error.version) && (error.NoDefinition? <==> Find(ms, error.version).None?)
    && (forall v | Recorded(s.rows, v) && v > error.version :: HasDown(ms, v))
    && exists reverted :: DownTo(engine, ms, s, error.version) == (Success(reverted), last)
  }

  lemma FailedHere<D>(engine: Engine<D>, ms: seq<Migration>, s: State<D>, target: int, top: int)
    requires Check(engine, ms, s.rows).None? && !Finished(ms, s.rows, target) && !HasDown(ms, top)
    requires Latest(s.rows) == Some(top) && top > target && Recorded(s.rows, top)
    requires forall r | r in s.rows :: r.version <= top
    ensures var (r, last) := DownTo(engine, ms, s, target);
            r.Failure? && StoppedAt(engine, ms, s, target, r.error, last)
  {
    CheckedVersionsAreDistinct(engine, ms, s.rows);
    FinishedWhen(ms, s.rows, top);
    hide Check, Finished, Latest;
    var error := if Find(ms, top).None? then NoDefinition(top) else NoDownSection(top);
    assert Down(engine, ms, s) == (Failure(error), s);
    assert DownTo(engine, ms, s, target) == (Failure(error), s);
    assert DownTo(engine, ms, s, top) == (Success([]), s);
  }

  lemma NewerHaveDown(ms: seq<Migration>, rows: seq<Row>, top: int, at: int)
    requires DistinctBy(RowVersion, rows) && HasDown(ms, top) && forall r | r in rows :: r.version <= top
    requires Recorded(Unrecord(rows, top), at)
    requires forall v | Recorded(Unrecord(rows, top), v) && v > at :: HasDown(ms, v)
    ensures Recorded(rows, at) && at < top && forall v | Recorded(rows, v) && v > at :: HasDown(ms, v)
  {
    forall v
      ensures Recorded(Unrecord(rows, top), v) <==> Recorded(rows, v) && v < top
    {
      OnlyNewerRemoved(rows, top, v);
    }
    forall v | Recorded(rows, v) && v > at
      ensures HasDown(ms, v)
    {
      var r :| r in rows && r.version == v;
      assert v == top || Recorded(Unrecord(rows, top), v);
    }
  }

  /** A rollback to an earlier version takes the same first turn. */
  lemma SameTurn<D>(engine: Engine<D>, ms: seq<Migration>, s: State<D>, at: int, top: int, last: State<D>)
    requires Check(engine, ms, s.rows).None? && HasDown(ms, top) && Recorded(s.rows, top) && at < top
    requires Down(engine, ms, s) == (Success(Some(top)), RevertOne(engine, s, Find(ms, top).value))
    requires exists reverted ::
               DownTo(engine, ms, RevertOne(engine, s, Find(ms, top).value), at) == (Success(reverted), last)
    ensures exists reverted :: DownTo(engine, ms, s, at) == (Success(reverted), last)
  {
    CheckedVersionsAreDistinct(engine, ms, s.rows);
    FinishedWhen(ms, s.rows, at);
    FoundIsDefined(ms, top);
    assert Above(ms, s.rows, at, top);
    hide Check, Finished, Recorded, Defined, Down, RevertOne, DownTo;
    TurnTo(engine, ms, s, at, top);
    var reverted :| DownTo(engine, ms, RevertOne(engine, s, Find(ms, top).value), at) == (Success(reverted), last);
    assert DownTo(engine, ms, s, at) == (Success([top] + reverted), last);
  }

  lemma FailedLater<D>(engine: Engine<D>, ms: seq<Migration>, s: State<D>, target: int, top: int, error: Trouble,
                       last: State<D>)
    requires Check(engine, ms, s.rows).None? && DistinctBy(RowVersion, s.rows) && HasDown(ms, top)
    requires Recorded(s.rows, top) && forall r | r in s.rows :: r.version <= top
    requires Down(engine, ms, s) == (Success(Some(top)), RevertOne(engine, s, Find(ms, top).value))
    requires RevertOne(engine, s, Find(ms, top).value).rows == Unrecord(s.rows, top)
    requires StoppedAt(engine, ms, RevertOne(engine, s, Find(ms, top).value), target, error, last)
    ensures StoppedAt(engine, ms, s, target, error, last)
  {
    hide Check, Recorded, Latest, Down, RevertOne, DownTo, DistinctBy, Unrecord, HasDown;
    NewerHaveDown(ms, s.rows, top, error.version);
    SameTurn(engine, ms, s, error.version, top, last);
  }

  lemma {:induction false} FailsAt<D>(engine: Engine<D>, ms: seq<Migration>, s: State<D>, target: int)
    requires Check(engine, ms, s.rows).None? && DistinctBy(RowVersion, s.rows)
    requires DownTo(engine, ms, s, target).0.Failure?
    ensures var (r, last) := DownTo(engine, ms, s, target); StoppedAt(engine, ms, s, target, r.error, last)
    decreases |s.rows|
  {
    hide CanRevert, Check, HasDown, Recorded, Defined, Finished, StoppedAt, DistinctBy;
    CheckedVersionsAreDistinct(engine, ms, s.rows);
    FinishedWhen(ms, s.rows, target);
    NewestRow(ms, s.rows, target);
    var top := Latest(s.rows).value;
    DownOfNewest(engine, ms, s, target, top);
    if HasDown(ms, top) {
      var next := RevertOne(engine, s, Find(ms, top).value);
      UnrecordShrinks(s.rows, top);
      TurnTo(engine, ms, s, target, top);
      FailsAt(engine, ms, next, target);
      var (r, last) := DownTo(engine, ms, s, target);
      FailedLater(engine, ms, s, target, top, r.error, last);
    } else {
      FailedHere(engine, ms, s, target, top);
    }
  }

  // ---- up, and back ----

  lemma {:induction false} InUnapplied(ms: seq<Migration>, rows: seq<Row>, m: Migration)
    ensures m in Unapplied(ms, rows) <==> m in ms && !Recorded(rows, m.version)
  {
    if ms != [] {
      var k := |ms| - 1;
      InUnapplied(ms[..k], rows, m);
      assert ms == ms[..k] + [ms[k]];
    }
  }

  lemma {:induction false} UnappliedDistinct(ms: seq<Migration>, rows: seq<Row>)
    requires DistinctBy(VersionOf, ms)
    ensures DistinctBy(VersionOf, Unapplied(ms, rows))
  {
    if ms != [] {
      var k := |ms| - 1;
      UnappliedDistinct(ms[..k], rows);
      var before := Unapplied(ms[..k], rows);
      forall m | m in before
        ensures VersionOf(m) != VersionOf(ms[k])
      {
        InUnapplied(ms[..k], rows, m);
        var i :| 0 <= i < k && ms[..k][i] == m;
        assert VersionOf(ms[i]) != VersionOf(ms[k]);
      }
      assert forall i | 0 <= i < |before| :: before[i] in before;
    }
  }

  lemma PendingIs(ms: seq<Migration>, rows: seq<Row>)
    requires DistinctBy(VersionOf, ms)
    ensures Ascending(VersionOf, Pending(ms, rows))
    ensures forall m :: m in Pending(ms, rows) <==> m in ms && !Recorded(rows, m.version)
  {
    UnappliedDistinct(ms, rows);
    SortByAscends(VersionOf, Unapplied(ms, rows));
    forall m
      ensures m in Pending(ms, rows) <==> m in ms && !Recorded(rows, m.version)
    {
      InSorted(VersionOf, Unapplied(ms, rows), m);
      InUnapplied(ms, rows, m);
    }
  }

  lemma {:induction false} InAppliedAll<D>(engine: Engine<D>, s: State<D>, ms: seq<Migration>, r: Row)
    ensures r in ApplyAll(engine, s, ms).rows <==> r in s.rows || exists m :: m in ms && r == RowOf(engine, m)
  {
    if ms != [] {
      var k := |ms| - 1;
      InAppliedAll(engine, s, ms[..k], r);
      assert ms == ms[..k] + [ms[k]];
    }
  }

  lemma {:induction false} FindUnique(ms: seq<Migration>, m: Migration)
    requires DistinctBy(VersionOf, ms) && m in ms
    ensures Find(ms, m.version) == Some(m)
  {
    FoundIsDefined(ms, m.version);
    var found := Find(ms, m.version).value;
    var i :| 0 <= i < |ms| && ms[i] == m;
    var j :| 0 <= j < |ms| && ms[j] == found;
    assert VersionOf(ms[i]) == VersionOf(ms[j]);
  }

  lemma NotYetRecorded<D>(engine: Engine<D>, ms: seq<Migration>, s: State<D>, k: nat)
    requires DistinctBy(VersionOf, ms) && k < |Pending(ms, s.rows)|
    ensures var pending := Pending(ms, s.rows);
            && pending[k] in ms
            && forall r | r in ApplyAll(engine, s, pending[..k]).rows :: r.version != pending[k].version
  {
    PendingIs(ms, s.rows);
    var pending := Pending(ms, s.rows);
    assert pending[k] in pending;
    forall r | r in ApplyAll(engine, s, pending[..k]).rows
      ensures r.version != pending[k].version
    {
      InAppliedAll(engine, s, pending[..k], r);
      if r !in s.rows {
        var m :| m in pending[..k] && r == RowOf(engine, m);
        var i :| 0 <= i < k && pending[i] == m;
        assert VersionOf(pending[i]) < VersionOf(pending[k]);
      }
    }
  }

  lemma OneMoreChecked(engine: Engine, ms: seq<Migration>, rows: seq<Row>, m: Migration)
    requires Check(engine, ms, rows).None? && DistinctBy(RowVersion, rows) && DistinctBy(VersionOf, ms)
    requires m in ms && forall r | r in rows :: r.version != m.version
    ensures Check(engine, ms, rows + [RowOf(engine, m)]).None? && DistinctBy(RowVersion, rows + [RowOf(engine, m)])
  {
    FindUnique(ms, m);
    assert (rows + [RowOf(engine, m)])[..|rows|] == rows;
    assert forall i | 0 <= i < |rows| :: rows[i] in rows;
  }

  /** After applying some of the pending migrations every check still passes, and no version is recorded twice. */
  lemma {:induction false} ApplyKeepsChecks<D>(engine: Engine<D>, ms: seq<Migration>, s: State<D>, k: nat)
    requires Check(engine, ms, s.rows).None? && DistinctBy(RowVersion, s.rows) && k <= |Pending(ms, s.rows)|
    ensures var after := ApplyAll(engine, s, Pending(ms, s.rows)[..k]);
            Check(engine, ms, after.rows).None? && DistinctBy(RowVersion, after.rows)
  {
    CheckedVersionsAreDistinct(engine, ms, s.rows);
    PendingIs(ms, s.rows);
    var pending := Pending(ms, s.rows);
    if k > 0 {
      ApplyKeepsChecks(engine, ms, s, k - 1);
      assert pending[..k][..k - 1] == pending[..k - 1];
      NotYetRecorded(engine, ms, s, k - 1);
      OneMoreChecked(engine, ms, ApplyAll(engine, s, pending[..k - 1]).rows, pending[k - 1]);
    } else {
      assert pending[..k] == [];
    }
  }

  lemma {:induction false} UnrecordLast(rows: seq<Row>, row: Row)
    requires forall r | r in rows :: r.version != row.version
    ensures Unrecord(rows + [row], row.version) == rows
  {
    if rows == [] {
      assert rows + [row] == [row];
    } else {
      assert rows[0] in rows;
      UnrecordLast(rows[1..], row);
      assert (rows + [row])[1..] == rows[1..] + [row];
    }
  }

  lemma LatestIsLast(rows: seq<Row>, row: Row)
    requires forall r | r in rows :: r.version < row.version
    ensures Latest(rows + [row]) == Some(row.version)
  {
    LatestIsGreatest(rows + [row]);
    assert row in rows + [row];
  }

  /** A down section that puts back what the up section changed. */
  ghost predicate Undoes<D(!new)>(engine: Engine<D>, m: Migration) {
    !Blank(m.down) && forall d: D :: engine.effect(m.down, engine.effect(m.up, d)) == d
  }

  ghost predicate Undoable<D(!new)>(engine: Engine<D>, ms: seq<Migration>, rows: seq<Row>, target: int) {
    && (forall r | r in rows :: r.version <= target)
    && (forall m | m in Pending(ms, rows) :: m.version > target && Undoes(engine, m))
  }

  lemma EarlierRowsAreOlder<D>(engine: Engine<D>, ms: seq<Migration>, s: State<D>, target: int, k: nat)
    requires DistinctBy(VersionOf, ms) && k < |Pending(ms, s.rows)| && Pending(ms, s.rows)[k].version > target
    requires forall r | r in s.rows :: r.version <= target
    ensures forall r | r in ApplyAll(engine, s, Pending(ms, s.rows)[..k]).rows ::
              r.version < Pending(ms, s.rows)[k].version
  {
    hide Pending;
    PendingIs(ms, s.rows);
    var pending := Pending(ms, s.rows);
    forall r | r in ApplyAll(engine, s, pending[..k]).rows
      ensures r.version < pending[k].version
    {
      InAppliedAll(engine, s, pending[..k], r);
      if r !in s.rows {
        var x :| x in pending[..k] && r == RowOf(engine, x);
        var i :| 0 <= i < k && pending[i] == x;
        assert VersionOf(pending[i]) < VersionOf(pending[k]);
      }
    }
  }

  /** Reverting a migration right after it was applied on top of older ones. */
  lemma DownUndoesOne<D(!new)>(engine: Engine<D>, ms: seq<Migration>, before: State<D>, m: Migration, target: int)
    requires DistinctBy(VersionOf, ms) && m in ms && m.version > target && Undoes(engine, m)
    requires Check(engine, ms, ApplyOne(engine, before, m).rows).None?
    requires forall r | r in before.rows :: r.version < m.version
    ensures !Finished(ms, ApplyOne(engine, before, m).rows, target)
    ensures Down(engine, ms, ApplyOne(engine, before, m)) == (Success(Some(m.version)), before)
  {
    hide Check, Finished, Latest, Find;
    var row := RowOf(engine, m);
    var after := ApplyOne(engine, before, m);
    FindUnique(ms, m);
    LatestIsLast(before.rows, row);
    UnrecordLast(before.rows, row);
    FinishedWhen(ms, after.rows, target);
    assert row in after.rows;
    assert Above(ms, after.rows, target, m.version);
  }

  /** Reverting the last of some applied migrations. */
  lemma DownUndoesLast<D(!new)>(engine: Engine<D>, ms: seq<Migration>, s: State<D>, target: int, k: nat)
    requires Check(engine, ms, s.rows).None? && DistinctBy(RowVersion, s.rows)
    requires Undoable(engine, ms, s.rows, target) && k < |Pending(ms, s.rows)|
    ensures var pending := Pending(ms, s.rows);
            var after := ApplyAll(engine, s, pending[..k + 1]);
            && Check(engine, ms, after.rows).None? && !Finished(ms, after.rows, target)
            && Down(engine, ms, after) == (Success(Some(pending[k].version)), ApplyAll(engine, s, pending[..k]))
  {
    hide Check, Finished, Down, Pending, Undoes, Recorded, Ascending;
    var pending := Pending(ms, s.rows);
    CheckedVersionsAreDistinct(engine, ms, s.rows);
    PendingIs(ms, s.rows);
    assert pending[k] in pending && pending[..k + 1][..k] == pending[..k];
    ApplyKeepsChecks(engine, ms, s, k + 1);
    EarlierRowsAreOlder(engine, ms, s, target, k);
    DownUndoesOne(engine, ms, ApplyAll(engine, s, pending[..k]), pending[k], target);
  }

  function Backwards(ms: seq<Migration>): seq<int>
  {
    if ms == [] then [] else [ms[|ms| - 1].version] + Backwards(ms[..|ms| - 1])
  }

  lemma NothingApplied<D>(engine: Engine<D>, s: State<D>)
    ensures ApplyAll(engine, s, []) == s
  {
  }

  lemma {:induction false} DownToUndoes<D(!new)>(engine: Engine<D>, ms: seq<Migration>, s: State<D>, target: int,
                                                 k: nat)
    requires Check(engine, ms, s.rows).None? && DistinctBy(RowVersion, s.rows)
    requires Undoable(engine, ms, s.rows, target) && k <= |Pending(ms, s.rows)|
    ensures var some := Pending(ms, s.rows)[..k];
            DownTo(engine, ms, ApplyAll(engine, s, some), target) == (Success(Backwards(some)), s)
  {
    hide Check, Finished, Down, Pending, ApplyAll;
    var pending := Pending(ms, s.rows);
    if k == 0 {
      NothingApplied(engine, s);
      CheckedVersionsAreDistinct(engine, ms, s.rows);
      assert pending[..k] == [];
      FinishedWhen(ms, s.rows, target);
    } else {
      DownUndoesLast(engine, ms, s, target, k - 1);
      DownToUndoes(engine, ms, s, target, k - 1);
      assert pending[..k][..k - 1] == pending[..k - 1];
    }
  }

  /**
   * Rolling back restores. When every pending version is above the target, every recorded one is
   * not, and each pending down section undoes its up section, up followed by downTo the target
   * gives back the very data and ledger, having reverted what up applied, newest first.
   */
  lemma UpThenDownToRestores<D(!new)>(engine: Engine<D>, ms: seq<Migration>, s: State<D>, target: int)
    requires Check(engine, ms, s.rows).None? && DistinctBy(RowVersion, s.rows)
    requires Undoable(engine, ms, s.rows, target)
    ensures var pending := Pending(ms, s.rows);
            DownTo(engine, ms, ApplyAll(engine, s, pending), target) == (Success(Backwards(pending)), s)
  {
    var pending := Pending(ms, s.rows);
    DownToUndoes(engine, ms, s, target, |pending|);
    assert pending[..|pending|] == pending;
  }

  lemma RecordedAfterUp<D>(engine: Engine<D>, ms: seq<Migration>, s: State<D>, v: int)
    requires DistinctBy(VersionOf, ms)
    ensures Recorded(ApplyAll(engine, s, Pending(ms, s.rows)).rows, v) <==> Recorded(s.rows, v) || Defined(ms, v)
  {
    var pending := Pending(ms, s.rows);
    var after := ApplyAll(engine, s, pending).rows;
    PendingIs(ms, s.rows);
    if Recorded(after, v) {
      var r :| r in after && r.version == v;
      InAppliedAll(engine, s, pending, r);
    }
    if Recorded(s.rows, v) {
      var r :| r in s.rows && r.version == v;
      InAppliedAll(engine, s, pending, r);
    } else if Defined(ms, v) {
      var m :| m in ms && m.version == v;
      InAppliedAll(engine, s, pending, RowOf(engine, m));
    }
  }

  /** After up, every defined version is recorded once, and nothing is pending. */
  lemma UpCompletes<D>(engine: Engine<D>, ms: seq<Migration>, s: State<D>)
    requires Check(engine, ms, s.rows).None? && DistinctBy(RowVersion, s.rows)
    ensures var after := ApplyAll(engine, s, Pending(ms, s.rows)).rows;
            && (forall v :: Recorded(after, v) <==> Recorded(s.rows, v) || Defined(ms, v))
            && DistinctBy(RowVersion, after) && Pending(ms, after) == []
  {
    var pending := Pending(ms, s.rows);
    var after := ApplyAll(engine, s, pending).rows;
    CheckedVersionsAreDistinct(engine, ms, s.rows);
    PendingIs(ms, s.rows);
    ApplyKeepsChecks(engine, ms, s, |pending|);
    assert pending[..|pending|] == pending;
    forall v
      ensures Recorded(after, v) <==> Recorded(s.rows, v) || Defined(ms, v)
    {
      RecordedAfterUp(engine, ms, s, v);
    }
    PendingIs(ms, after);
    if Pending(ms, after) != [] {
      var m := Pending(ms, after)[0];
      assert Defined(ms, m.version);
    }
  }

  // ---- the connection in memory ----

  /** It records every text it is asked to execute, and it computes no checksums. */
  function InMemory(): Engine<seq<string>> {
    Engine((sql: string, executed: seq<string>) => executed + [sql], None)
  }

  function Ups(ms: seq<Migration>): seq<string>
  {
    if ms == [] then [] else Ups(ms[..|ms| - 1]) + [ms[|ms| - 1].up]
  }

  predicate Unchecked(rows: seq<Row>) {
    forall r | r in rows :: r.checksum == None
  }

  /** Applying records the up texts in order and rows without checksums, so that a later check passes. */
  lemma {:induction false} InMemoryRecordsTexts(s: State<seq<string>>, ms: seq<Migration>)
    ensures var after := ApplyAll(InMemory(), s, ms);
            && after.data == s.data + Ups(ms)
            && (Unchecked(s.rows) ==> Unchecked(after.rows))
  {
    if ms != [] {
      InMemoryRecordsTexts(s, ms[..|ms| - 1]);
    }
  }

  lemma {:induction false} NoChecksumNoTrouble(ms: seq<Migration>, rows: seq<Row>)
    requires Unchecked(rows)
    ensures LedgerTrouble(InMemory(), ms, rows) == None
  {
    if rows != [] {
      NoChecksumNoTrouble(ms, rows[..|rows| - 1]);
    }
  }

  lemma {:induction false} InMemoryChecksVersionsOnly(ms: seq<Migration>, rows: seq<Row>)
    requires Unchecked(rows)
    ensures Check(InMemory(), ms, rows) == VersionTrouble(ms)
  {
    NoChecksumNoTrouble(ms, rows);
  }
}
