/** The asynchronous migration runner: what up, down, downTo and status do to a database and its ledger, as values. */
module Runner {
  import opened Wrappers
  import opened Sorting
  import opened Texts
  import opened Versions

  datatype Migration = Migration(version: int, name: string, up: string, down: string)

  /** A row written before checksums were introduced has none. */
  datatype Row = Row(version: int, name: string, checksum: Option<string>)

  datatype State<D> = State(data: D, rows: seq<Row>)

  /** What the runner works with: the meaning of SQL on the data, and the connection's checksum if it has one. */
  datatype Engine<!D> = Engine(effect: (string, D) -> D, checksum: Option<string -> string>)

  datatype Trouble =
    | UnsafeVersion
    | DuplicateVersion(version: int)
    | CannotVerify(version: int)
    | Edited(version: int)
    | NoDefinition(version: int)
    | NoDownSection(version: int)
    | NotApplied(version: int)
    | NotReverted(version: int)
    | ConnectionFailed

  /** The troubles that come from a failed call rather than from what the ledger and the definitions hold. */
  predicate FromCall(trouble: Trouble) {
    trouble.NotApplied? || trouble.NotReverted? || trouble.ConnectionFailed?
  }

  datatype Status = Status(version: int, name: string, applied: bool)

  function VersionOf(m: Migration): int { m.version }

  function RowVersion(r: Row): int { r.version }

  function VersionsOf(ms: seq<Migration>): (r: seq<int>)
    ensures |r| == |ms| && forall i | 0 <= i < |ms| :: r[i] == ms[i].version
  {
    if ms == [] then [] else VersionsOf(ms[..|ms| - 1]) + [ms[|ms| - 1].version]
  }

  predicate Recorded(rows: seq<Row>, version: int) {
    exists r | r in rows :: r.version == version
  }

  predicate Defined(ms: seq<Migration>, version: int) {
    exists m | m in ms :: m.version == version
  }

  // ---- checks ----

  function VersionTrouble(ms: seq<Migration>): Option<Trouble> {
    match FirstBad(VersionsOf(ms))
    case None => None
    case Some(i) => Some(if Safe(ms[i].version) then DuplicateVersion(ms[i].version) else UnsafeVersion)
  }

  function Find(ms: seq<Migration>, version: int): Option<Migration>
  {
    if ms == [] then None else if ms[0].version == version then Some(ms[0]) else Find(ms[1..], version)
  }

  function RowTrouble(engine: Engine, ms: seq<Migration>, row: Row): Option<Trouble> {
    if row.checksum.None? then None
    else match Find(ms, row.version)
      case None => None
      case Some(m) =>
        match engine.checksum
        case None => Some(CannotVerify(row.version))
        case Some(checksum) => if checksum(m.up) != row.checksum.value then Some(Edited(row.version)) else None
  }

  /** The first row, in ledger order, that does not verify. */
  function LedgerTrouble(engine: Engine, ms: seq<Migration>, rows: seq<Row>): Option<Trouble>
  {
    if rows == [] then None
    else
      var earlier := LedgerTrouble(engine, ms, rows[..|rows| - 1]);
      if earlier.Some? then earlier else RowTrouble(engine, ms, rows[|rows| - 1])
  }

  /** What every operation checks first. */
  function Check(engine: Engine, ms: seq<Migration>, rows: seq<Row>): Option<Trouble> {
    if VersionTrouble(ms).Some? then VersionTrouble(ms) else LedgerTrouble(engine, ms, rows)
  }

  // ---- up ----

  function Unapplied(ms: seq<Migration>, rows: seq<Row>): seq<Migration>
  {
    if ms == [] then []
    else Unapplied(ms[..|ms| - 1], rows) + if Recorded(rows, ms[|ms| - 1].version) then [] else [ms[|ms| - 1]]
  }

  function Pending(ms: seq<Migration>, rows: seq<Row>): seq<Migration> {
    SortBy(VersionOf, Unapplied(ms, rows))
  }

  function RowOf(engine: Engine, m: Migration): Row {
    Row(m.version, m.name, match engine.checksum case None => None case Some(checksum) => Some(checksum(m.up)))
  }

  function ApplyOne<D>(engine: Engine<D>, s: State<D>, m: Migration): State<D> {
    State(engine.effect(m.up, s.data), s.rows + [RowOf(engine, m)])
  }

  function ApplyAll<D>(engine: Engine<D>, s: State<D>, ms: seq<Migration>): State<D>
  {
    if ms == [] then s else ApplyOne(engine, ApplyAll(engine, s, ms[..|ms| - 1]), ms[|ms| - 1])
  }

  // ---- down ----

  /** recordReverted: the first row of that version leaves the ledger. */
  function Unrecord(rows: seq<Row>, version: int): seq<Row>
  {
    if rows == [] then []
    else if rows[0].version == version then rows[1..]
    else [rows[0]] + Unrecord(rows[1..], version)
  }

  function Newest(r: Row): int { -r.version }

  /** The greatest version of the ledger. */
  function Latest(rows: seq<Row>): Option<int> {
    var sorted := SortBy(Newest, rows);
    if sorted == [] then None else Some(sorted[0].version)
  }

  function RevertOne<D>(engine: Engine<D>, s: State<D>, m: Migration): State<D> {
    State(engine.effect(m.down, s.data), Unrecord(s.rows, m.version))
  }

  function Down<D>(engine: Engine<D>, ms: seq<Migration>, s: State<D>): (Result<Option<int>, Trouble>, State<D>) {
    if Check(engine, ms, s.rows).Some? then (Failure(Check(engine, ms, s.rows).value), s)
    else match Latest(s.rows)
      case None => (Success(None), s)
      case Some(version) =>
        match Find(ms, version)
        case None => (Failure(NoDefinition(version)), s)
        case Some(m) =>
          if Blank(m.down) then (Failure(NoDownSection(version)), s)
          else (Success(Some(version)), RevertOne(engine, s, m))
  }

  // ---- status, downTo ----

  function StatusOf(ordered: seq<Migration>, rows: seq<Row>): (r: seq<Status>)
    ensures |r| == |ordered|
    ensures forall i | 0 <= i < |r| ::
              r[i] == Status(ordered[i].version, ordered[i].name, Recorded(rows, ordered[i].version))
  {
    if ordered == [] then []
    else
      var m := ordered[|ordered| - 1];
      StatusOf(ordered[..|ordered| - 1], rows) + [Status(m.version, m.name, Recorded(rows, m.version))]
  }

  function AppliedVersions(listed: seq<Status>): seq<int>
  {
    if listed == [] then []
    else
      var last := listed[|listed| - 1];
      AppliedVersions(listed[..|listed| - 1]) + if last.applied then [last.version] else []
  }

  /** The versions status lists as applied, ascending: those of the ledger that have a definition. */
  function Applied(ms: seq<Migration>, rows: seq<Row>): seq<int> {
    AppliedVersions(StatusOf(SortBy(VersionOf, ms), rows))
  }

  predicate Finished(ms: seq<Migration>, rows: seq<Row>, target: int) {
    var applied := Applied(ms, rows);
    applied == [] || applied[|applied| - 1] <= target
  }

  lemma {:induction false} UnrecordShrinks(rows: seq<Row>, version: int)
    requires Recorded(rows, version)
    ensures |Unrecord(rows, version)| == |rows| - 1
  {
    if rows[0].version != version {
      UnrecordShrinks(rows[1..], version);
    }
  }

  lemma LatestIsGreatest(rows: seq<Row>)
    ensures Latest(rows).None? <==> rows == []
    ensures Latest(rows).Some? ==>
              && Recorded(rows, Latest(rows).value)
              && forall r | r in rows :: r.version <= Latest(rows).value
  {
    var sorted := SortBy(Newest, rows);
    SortByMembers(Newest, rows);
    SortBySorts(Newest, rows);
    assert |sorted| == |rows| by {
      assert |multiset(sorted)| == |sorted| && |multiset(rows)| == |rows|;
    }
    if sorted != [] {
      InSorted(Newest, rows, sorted[0]);
      forall r | r in rows
        ensures r.version <= sorted[0].version
      {
        InSorted(Newest, rows, r);
        var i :| 0 <= i < |sorted| && sorted[i] == r;
        assert Newest(sorted[0]) <= Newest(sorted[i]);
      }
    }
  }

  lemma {:induction false} FoundIsDefined(ms: seq<Migration>, version: int)
    ensures Find(ms, version).Some? <==> Defined(ms, version)
    ensures Find(ms, version).Some? ==> Find(ms, version).value in ms && Find(ms, version).value.version == version
  {
    if ms != [] {
      FoundIsDefined(ms[1..], version);
      assert ms == [ms[0]] + ms[1..];
    }
  }

  lemma DownShrinks<D>(engine: Engine<D>, ms: seq<Migration>, s: State<D>)
    ensures var (r, after) := Down(engine, ms, s);
            r.Success? && r.value.Some? ==> |after.rows| == |s.rows| - 1
  {
    LatestIsGreatest(s.rows);
    if Latest(s.rows).Some? {
      FoundIsDefined(ms, Latest(s.rows).value);
      UnrecordShrinks(s.rows, Latest(s.rows).value);
    }
  }

  /** The loop of downTo when every piece of SQL succeeds: the versions it reverts, or the trouble that stops it. */
  function DownTo<D>(engine: Engine<D>, ms: seq<Migration>, s: State<D>, target: int)
    : (Result<seq<int>, Trouble>, State<D>)
    decreases |s.rows|
  {
    if Check(engine, ms, s.rows).Some? then (Failure(Check(engine, ms, s.rows).value), s)
    else if Finished(ms, s.rows, target) then (Success([]), s)
    else
      var (r, after) := Down(engine, ms, s);
      if r.Failure? then (Failure(r.error), after)
      else if r.value.None? then (Success([]), after)
      else
        DownShrinks(engine, ms, s);
        var (rest, last) := DownTo(engine, ms, after, target);
        (if rest.Success? then Success([r.value.value] + rest.value) else rest, last)
  }
}
