/** The bundle-resident SQLite runner: what a run does to the database and its ledger, as values. */
module Embedded {
  import opened Wrappers
  import opened Sequences
  import opened Sorting
  import opened Versions

  const REQUIRED: set<string> := {"version", "name", "applied_at"}

  datatype Migration = Migration(version: int, name: string, up: string, checksum: string)

  datatype LedgerRow = LedgerRow(version: int, name: string, checksum: Option<string>)

  /** The data of a database, the columns of its ledger table if it has one, and the ledger's rows. */
  datatype State<D> = State(data: D, columns: Option<set<string>>, rows: seq<LedgerRow>)

  datatype Refusal =
    | BadShape
    | DuplicateVersion(version: int)
    | ChecksumDiffers(version: int)
    | LedgerAhead(version: int)

  function VersionOf(m: Migration): int { m.version }

  function RowVersion(r: LedgerRow): int { r.version }

  function VersionsOf(ms: seq<Migration>): (r: seq<int>)
    ensures |r| == |ms| && forall i | 0 <= i < |ms| :: r[i] == ms[i].version
  {
    if ms == [] then [] else VersionsOf(ms[..|ms| - 1]) + [ms[|ms| - 1].version]
  }

  function RowVersions(rows: seq<LedgerRow>): (r: seq<int>)
    ensures |r| == |rows| && forall i | 0 <= i < |rows| :: r[i] == rows[i].version
  {
    if rows == [] then [] else RowVersions(rows[..|rows| - 1]) + [rows[|rows| - 1].version]
  }

  // ---- what a run refuses ----

  function BundleProblem(bundle: seq<Migration>): Option<Refusal> {
    match FirstBad(VersionsOf(bundle))
    case None => None
    case Some(i) => Some(if Safe(bundle[i].version) then DuplicateVersion(bundle[i].version) else BadShape)
  }

  function RowsProblem(rows: seq<LedgerRow>): Option<Refusal> {
    if FirstBad(RowVersions(rows)).Some? then Some(BadShape) else None
  }

  predicate Differs(row: LedgerRow, byVersion: map<int, Migration>) {
    row.version in byVersion && row.checksum.Some? && byVersion[row.version].checksum != row.checksum.value
  }

  function FirstDifference(rows: seq<LedgerRow>, byVersion: map<int, Migration>): Option<Refusal>
  {
    if rows == [] then None
    else
      var k := |rows| - 1;
      var earlier := FirstDifference(rows[..k], byVersion);
      if earlier.Some? then earlier
      else if Differs(rows[k], byVersion) then Some(ChecksumDiffers(rows[k].version))
      else None
  }

  function FirstUnknown(rows: seq<LedgerRow>, byVersion: map<int, Migration>): Option<Refusal>
  {
    if rows == [] then None
    else
      var k := |rows| - 1;
      var earlier := FirstUnknown(rows[..k], byVersion);
      if earlier.Some? then earlier
      else if rows[k].version !in byVersion then Some(LedgerAhead(rows[k].version))
      else None
  }

  predicate ReadyFor(columns: Option<set<string>>) {
    columns.None? || REQUIRED <= columns.value
  }

  function WithoutChecksums(rows: seq<LedgerRow>): (r: seq<LedgerRow>)
    ensures |r| == |rows|
    ensures forall i | 0 <= i < |rows| :: r[i] == rows[i].(checksum := None)
  {
    if rows == [] then [] else WithoutChecksums(rows[..|rows| - 1]) + [rows[|rows| - 1].(checksum := None)]
  }

  /** A missing ledger is created, and an old one gains the checksum column. */
  function Ready<D>(s: State<D>): State<D> {
    match s.columns
    case None => s.(columns := Some(REQUIRED + {"checksum"}), rows := [])
    case Some(columns) =>
      if "checksum" in columns then s
      else s.(columns := Some(columns + {"checksum"}), rows := WithoutChecksums(s.rows))
  }

  /** Everything a run checks before it applies anything, in the order it checks. */
  function Refuses<D>(bundle: seq<Migration>, s: State<D>): Option<Refusal> {
    if BundleProblem(bundle).Some? then BundleProblem(bundle)
    else if !ReadyFor(s.columns) then Some(BadShape)
    else
      var rows := SortBy(RowVersion, Ready(s).rows);
      var byVersion := IndexBy(VersionOf, bundle);
      if RowsProblem(rows).Some? then RowsProblem(rows)
      else if FirstDifference(rows, byVersion).Some? then FirstDifference(rows, byVersion)
      else FirstUnknown(rows, byVersion)
  }

  // ---- applying migrations ----

  /** The bundle's migrations a ledger does not have, ascending. */
  ghost function Unapplied(ordered: seq<Migration>, applied: set<int>): seq<Migration>
  {
    if ordered == [] then []
    else
      var k := |ordered| - 1;
      Unapplied(ordered[..k], applied) + if ordered[k].version in applied then [] else [ordered[k]]
  }

  ghost function Pending<D>(bundle: seq<Migration>, s: State<D>): seq<Migration> {
    Unapplied(SortBy(VersionOf, bundle), Elements(RowVersions(s.rows)))
  }

  function RowOf(m: Migration): LedgerRow {
    LedgerRow(m.version, m.name, Some(m.checksum))
  }

  function ApplyOne<D>(effect: (string, D) -> D, s: State<D>, m: Migration): State<D> {
    s.(data := effect(m.up, s.data), rows := s.rows + [RowOf(m)])
  }

  function ApplyAll<D>(effect: (string, D) -> D, s: State<D>, ms: seq<Migration>): State<D>
  {
    if ms == [] then s else ApplyOne(effect, ApplyAll(effect, s, ms[..|ms| - 1]), ms[|ms| - 1])
  }

  /** One run from start to finish, without a failure. */
  ghost function Uninterrupted<D>(effect: (string, D) -> D, bundle: seq<Migration>, s: State<D>): State<D> {
    ApplyAll(effect, Ready(s), Pending(bundle, Ready(s)))
  }

  /** A run that failed, and rolled back, when it came to the migration at position `cut`. */
  ghost function Interrupted<D>(effect: (string, D) -> D, bundle: seq<Migration>, s: State<D>, cut: nat): State<D> {
    var pending := Pending(bundle, Ready(s));
    ApplyAll(effect, Ready(s), if cut < |pending| then pending[..cut] else pending)
  }

  // ---- a ledger is accepted exactly when the bundle explains it ----

  ghost predicate Explained(bundle: seq<Migration>, r: LedgerRow) {
    exists m :: m in bundle && m.version == r.version && (r.checksum == None || r.checksum == Some(m.checksum))
  }

  ghost predicate Explains(bundle: seq<Migration>, rows: seq<LedgerRow>) {
    && DistinctBy(RowVersion, rows)
    && forall r | r in rows :: Explained(bundle, r)
  }

  lemma {:induction false} NoDifference(rows: seq<LedgerRow>, byVersion: map<int, Migration>)
    ensures FirstDifference(rows, byVersion).None? <==> forall r | r in rows :: !Differs(r, byVersion)
  {
    hide Differs;
    if rows != [] {
      var k := |rows| - 1;
      NoDifference(rows[..k], byVersion);
      assert forall r :: r in rows <==> r in rows[..k] || r == rows[k] by {
        assert rows == rows[..k] + [rows[k]];
      }
    }
  }

  lemma {:induction false} NoUnknown(rows: seq<LedgerRow>, byVersion: map<int, Migration>)
    ensures FirstUnknown(rows, byVersion).None? <==> forall r | r in rows :: r.version in byVersion
  {
    if rows != [] {
      var k := |rows| - 1;
      NoUnknown(rows[..k], byVersion);
      assert forall r :: r in rows <==> r in rows[..k] || r == rows[k] by {
        assert rows == rows[..k] + [rows[k]];
      }
    }
  }

  lemma RowExplained(bundle: seq<Migration>, r: LedgerRow)
    requires DistinctBy(VersionOf, bundle)
    ensures var byVersion := IndexBy(VersionOf, bundle);
            r.version in byVersion && !Differs(r, byVersion)
            <==> Explained(bundle, r)
  {
    var byVersion := IndexBy(VersionOf, bundle);
    if r.version in byVersion {
      IndexByFinds(VersionOf, bundle, r.version);
    }
    if m :| m in bundle && m.version == r.version && (r.checksum == None || r.checksum == Some(m.checksum)) {
      IndexByUnique(VersionOf, bundle, m);
    }
  }

  lemma BundleAcceptedWhen(bundle: seq<Migration>)
    ensures BundleProblem(bundle).None? <==> DistinctBy(VersionOf, bundle) && forall m | m in bundle :: Safe(m.version)
  {
    var versions := VersionsOf(bundle);
    NoneIsBadWhen(versions);
    assert Distinct(versions) <==> DistinctBy(VersionOf, bundle) by {
      assert forall i | 0 <= i < |bundle| :: versions[i] == VersionOf(bundle[i]);
    }
    assert forall v :: v in versions ==> exists m :: m in bundle && m.version == v;
    forall m | m in bundle
      ensures m.version in versions
    {
      var i :| 0 <= i < |bundle| && bundle[i] == m;
      assert versions[i] == m.version;
    }
  }

  lemma RowsAcceptedWhen(rows: seq<LedgerRow>)
    ensures RowsProblem(rows).None? <==> DistinctBy(RowVersion, rows) && forall r | r in rows :: Safe(r.version)
  {
    var versions := RowVersions(rows);
    NoneIsBadWhen(versions);
    assert Distinct(versions) <==> DistinctBy(RowVersion, rows) by {
      assert forall i | 0 <= i < |rows| :: versions[i] == RowVersion(rows[i]);
    }
    assert forall v :: v in versions ==> exists r :: r in rows && r.version == v;
    forall r | r in rows
      ensures r.version in versions
    {
      var i :| 0 <= i < |rows| && rows[i] == r;
      assert versions[i] == r.version;
    }
  }

  ghost predicate LedgerAccepted(bundle: seq<Migration>, rows: seq<LedgerRow>) {
    && RowsProblem(SortBy(RowVersion, rows)).None?
    && FirstDifference(SortBy(RowVersion, rows), IndexBy(VersionOf, bundle)).None?
    && FirstUnknown(SortBy(RowVersion, rows), IndexBy(VersionOf, bundle)).None?
  }

  lemma LedgerAcceptedWhen(bundle: seq<Migration>, rows: seq<LedgerRow>)
    requires DistinctBy(VersionOf, bundle) && forall m | m in bundle :: Safe(m.version)
    ensures LedgerAccepted(bundle, rows) <==> Explains(bundle, rows)
  {
    hide SortBy, IndexBy, FirstDifference, FirstUnknown, RowsProblem;
    var sorted, byVersion := SortBy(RowVersion, rows), IndexBy(VersionOf, bundle);
    RowsAcceptedWhen(sorted);
    NoDifference(sorted, byVersion);
    NoUnknown(sorted, byVersion);
    SameDistinctness(RowVersion, rows);
    forall r
      ensures r in sorted <==> r in rows
      ensures r.version in byVersion && !Differs(r, byVersion) <==> Explained(bundle, r)
      ensures Explained(bundle, r) ==> Safe(r.version)
    {
      InSorted(RowVersion, rows, r);
      RowExplained(bundle, r);
    }
  }

  /** A run goes ahead exactly when the bundle's versions are in order and the bundle explains every ledger row. */
  lemma RefusesExactly<D>(bundle: seq<Migration>, s: State<D>)
    ensures Refuses(bundle, s).None?
            <==> && DistinctBy(VersionOf, bundle) && (forall m | m in bundle :: Safe(m.version))
                 && ReadyFor(s.columns) && Explains(bundle, Ready(s).rows)
  {
    BundleAcceptedWhen(bundle);
    if BundleProblem(bundle).None? && ReadyFor(s.columns) {
      LedgerAcceptedWhen(bundle, Ready(s).rows);
    }
  }

  // ---- a run picks up where an interrupted one stopped ----

  ghost function MigrationVersions(ms: seq<Migration>): set<int> { set m | m in ms :: m.version }

  lemma OneMoreRow(rows: seq<LedgerRow>, row: LedgerRow)
    ensures Elements(RowVersions(rows + [row])) == Elements(RowVersions(rows)) + {row.version}
  {
    assert (rows + [row])[..|rows|] == rows;
    assert RowVersions(rows + [row]) == RowVersions(rows) + [row.version];
  }

  lemma OneMoreMigration(ms: seq<Migration>, m: Migration)
    ensures MigrationVersions(ms + [m]) == MigrationVersions(ms) + {m.version}
  {
  }

  lemma NoMigration()
    ensures MigrationVersions([]) == {}
  {
  }

  lemma {:induction false} AppliedRows<D>(effect: (string, D) -> D, s: State<D>, ms: seq<Migration>)
    ensures var after := ApplyAll(effect, s, ms);
            && after.columns == s.columns
            && Elements(RowVersions(after.rows)) == Elements(RowVersions(s.rows)) + MigrationVersions(ms)
  {
    hide RowVersions, MigrationVersions;
    if ms == [] {
      NoMigration();
    } else {
      var k := |ms| - 1;
      AppliedRows(effect, s, ms[..k]);
      OneMoreRow(ApplyAll(effect, s, ms[..k]).rows, RowOf(ms[k]));
      OneMoreMigration(ms[..k], ms[k]);
      assert ms == ms[..k] + [ms[k]];
    }
  }

  lemma {:induction false} InAppliedRows<D>(effect: (string, D) -> D, s: State<D>, ms: seq<Migration>, r: LedgerRow)
    ensures r in ApplyAll(effect, s, ms).rows <==> r in s.rows || exists m :: m in ms && r == RowOf(m)
  {
    if ms != [] {
      var k := |ms| - 1;
      InAppliedRows(effect, s, ms[..k], r);
      assert ms == ms[..k] + [ms[k]];
    }
  }

  lemma {:induction false} ApplyInTwo<D>(effect: (string, D) -> D, s: State<D>, a: seq<Migration>, b: seq<Migration>)
    ensures ApplyAll(effect, s, a + b) == ApplyAll(effect, ApplyAll(effect, s, a), b)
  {
    if b == [] {
      assert a + b == a;
    } else {
      var k := |b| - 1;
      ApplyInTwo(effect, s, a, b[..k]);
      assert (a + b)[..|a + b| - 1] == a + b[..k];
    }
  }

  lemma {:induction false} UnappliedMembers(ordered: seq<Migration>, applied: set<int>, m: Migration)
    ensures m in Unapplied(ordered, applied) <==> m in ordered && m.version !in applied
  {
    if ordered != [] {
      var k := |ordered| - 1;
      UnappliedMembers(ordered[..k], applied, m);
      assert ordered == ordered[..k] + [ordered[k]];
    }
  }

  lemma {:induction false} UnappliedDependsOn(ordered: seq<Migration>, a: set<int>, b: set<int>)
    requires forall m | m in ordered :: m.version in a <==> m.version in b
    ensures Unapplied(ordered, a) == Unapplied(ordered, b)
  {
    if ordered != [] {
      var k := |ordered| - 1;
      assert ordered == ordered[..k] + [ordered[k]];
      UnappliedDependsOn(ordered[..k], a, b);
      assert ordered[k] in ordered;
    }
  }

  lemma EarlierVersions(ordered: seq<Migration>, applied: set<int>)
    requires Ascending(VersionOf, ordered) && ordered != []
    ensures ordered[|ordered| - 1].version !in MigrationVersions(Unapplied(ordered[..|ordered| - 1], applied))
    ensures forall m | m in ordered[..|ordered| - 1] :: m.version != ordered[|ordered| - 1].version
  {
    var k := |ordered| - 1;
    assert forall m | m in ordered[..k] :: VersionOf(m) < VersionOf(ordered[k]);
    forall m | m in Unapplied(ordered[..k], applied)
      ensures VersionOf(m) < VersionOf(ordered[k])
    {
      UnappliedMembers(ordered[..k], applied, m);
    }
  }

  lemma UnappliedLast(ordered: seq<Migration>, applied: set<int>)
    requires ordered != []
    ensures var k := |ordered| - 1;
            Unapplied(ordered, applied)
            == Unapplied(ordered[..k], applied) + if ordered[k].version in applied then [] else [ordered[k]]
  {
  }

  lemma LastStaysPending(ordered: seq<Migration>, applied: set<int>, cut: nat)
    requires Ascending(VersionOf, ordered) && ordered != [] && cut <= |Unapplied(ordered[..|ordered| - 1], applied)|
    requires var before := Unapplied(ordered[..|ordered| - 1], applied);
             Unapplied(ordered[..|ordered| - 1], applied + MigrationVersions(before[..cut])) == before[cut..]
    ensures Unapplied(ordered, applied + MigrationVersions(Unapplied(ordered, applied)[..cut]))
            == Unapplied(ordered, applied)[cut..]
  {
    EarlierVersions(ordered, applied);
    hide Ascending, Unapplied, MigrationVersions;
    var k := |ordered| - 1;
    var before, all := Unapplied(ordered[..k], applied), Unapplied(ordered, applied);
    UnappliedLast(ordered, applied);
    UnappliedLast(ordered, applied + MigrationVersions(before[..cut]));
    var tail := if ordered[k].version in applied then [] else [ordered[k]];
    assert all == before + tail;
    SlicesOfConcat(before, tail, cut);
  }

  lemma NothingStaysPending(ordered: seq<Migration>, applied: set<int>)
    requires Ascending(VersionOf, ordered) && ordered != [] && ordered[|ordered| - 1].version !in applied
    requires var before := Unapplied(ordered[..|ordered| - 1], applied);
             Unapplied(ordered[..|ordered| - 1], applied + MigrationVersions(before)) == []
    ensures Unapplied(ordered, applied + MigrationVersions(Unapplied(ordered, applied))) == []
  {
    EarlierVersions(ordered, applied);
    hide Ascending, Unapplied, MigrationVersions;
    var k := |ordered| - 1;
    var before, all := Unapplied(ordered[..k], applied), Unapplied(ordered, applied);
    UnappliedLast(ordered, applied);
    OneMoreMigration(before, ordered[k]);
    var some, full := applied + MigrationVersions(before), applied + MigrationVersions(all);
    assert full == some + {ordered[k].version};
    UnappliedDependsOn(ordered[..k], some, full);
    UnappliedLast(ordered, full);
  }

  /** What is left after a prefix of the pending migrations has been recorded is the rest of them. */
  lemma {:induction false} UnappliedRest(ordered: seq<Migration>, applied: set<int>, cut: nat)
    requires Ascending(VersionOf, ordered) && cut <= |Unapplied(ordered, applied)|
    ensures Unapplied(ordered, applied + MigrationVersions(Unapplied(ordered, applied)[..cut]))
            == Unapplied(ordered, applied)[cut..]
  {
    if ordered != [] {
      var k := |ordered| - 1;
      var before, all := Unapplied(ordered[..k], applied), Unapplied(ordered, applied);
      assert |all| <= |before| + 1 && (|all| > |before| ==> ordered[k].version !in applied);
      hide MigrationVersions, Unapplied;
      AscendingPrefix(VersionOf, ordered, k);
      if cut <= |before| {
        UnappliedRest(ordered[..k], applied, cut);
        LastStaysPending(ordered, applied, cut);
      } else {
        UnappliedRest(ordered[..k], applied, |before|);
        assert before[..|before|] == before && before[|before|..] == [];
        NothingStaysPending(ordered, applied);
        assert cut == |all| && all[..cut] == all && all[cut..] == [];
      }
    }
  }

  lemma BundleAscends(bundle: seq<Migration>)
    requires DistinctBy(VersionOf, bundle)
    ensures Ascending(VersionOf, SortBy(VersionOf, bundle))
    ensures forall m :: m in SortBy(VersionOf, bundle) <==> m in bundle
  {
    SortByAscends(VersionOf, bundle);
    forall m
      ensures m in SortBy(VersionOf, bundle) <==> m in bundle
    {
      InSorted(VersionOf, bundle, m);
    }
  }

  lemma PendingRest<D>(effect: (string, D) -> D, bundle: seq<Migration>, s: State<D>, cut: nat)
    requires DistinctBy(VersionOf, bundle) && cut <= |Pending(bundle, s)|
    ensures Pending(bundle, ApplyAll(effect, s, Pending(bundle, s)[..cut])) == Pending(bundle, s)[cut..]
  {
    BundleAscends(bundle);
    AppliedRows(effect, s, Pending(bundle, s)[..cut]);
    UnappliedRest(SortBy(VersionOf, bundle), Elements(RowVersions(s.rows)), cut);
  }

  lemma InPending<D>(bundle: seq<Migration>, s: State<D>, m: Migration)
    requires DistinctBy(VersionOf, bundle)
    ensures m in Pending(bundle, s) <==> m in bundle && m.version !in Elements(RowVersions(s.rows))
  {
    BundleAscends(bundle);
    UnappliedMembers(SortBy(VersionOf, bundle), Elements(RowVersions(s.rows)), m);
  }

  lemma VersionRecorded(rows: seq<LedgerRow>, r: LedgerRow)
    requires r in rows
    ensures r.version in Elements(RowVersions(rows))
  {
    var i :| 0 <= i < |rows| && rows[i] == r;
    assert RowVersions(rows)[i] == r.version;
  }

  lemma ExplainsOneMore(bundle: seq<Migration>, rows: seq<LedgerRow>, row: LedgerRow)
    requires Explains(bundle, rows) && Explained(bundle, row)
    requires forall r | r in rows :: RowVersion(r) != row.version
    ensures Explains(bundle, rows + [row])
  {
  }

  lemma {:induction false} StillExplained<D>(effect: (string, D) -> D, bundle: seq<Migration>, s: State<D>,
                                             ms: seq<Migration>)
    requires DistinctBy(VersionOf, bundle) && Explains(bundle, s.rows)
    requires Ascending(VersionOf, ms) && forall m | m in ms :: m in Pending(bundle, s)
    ensures Explains(bundle, ApplyAll(effect, s, ms).rows)
  {
    if ms != [] {
      var k := |ms| - 1;
      var last := ms[k];
      assert ms == ms[..k] + [last];
      StillExplained(effect, bundle, s, ms[..k]);
      var before := ApplyAll(effect, s, ms[..k]).rows;
      InPending(bundle, s, last);
      forall r | r in before
        ensures RowVersion(r) != last.version
      {
        if r in s.rows {
          VersionRecorded(s.rows, r);
        } else {
          InAppliedRows(effect, s, ms[..k], r);
          var m :| m in ms[..k] && r == RowOf(m);
          assert VersionOf(m) < VersionOf(last);
        }
      }
      assert Explained(bundle, RowOf(last));
      ExplainsOneMore(bundle, before, RowOf(last));
    }
  }

  lemma {:induction false} UnappliedAscends(ordered: seq<Migration>, applied: set<int>)
    requires Ascending(VersionOf, ordered)
    ensures Ascending(VersionOf, Unapplied(ordered, applied))
  {
    if ordered != [] {
      var k := |ordered| - 1;
      UnappliedAscends(ordered[..k], applied);
      forall m | m in Unapplied(ordered[..k], applied)
        ensures VersionOf(m) < VersionOf(ordered[k])
      {
        UnappliedMembers(ordered[..k], applied, m);
      }
      AscendingSnoc(VersionOf, Unapplied(ordered[..k], applied), ordered[k]);
    }
  }

  lemma PendingAscends<D>(bundle: seq<Migration>, s: State<D>, cut: nat)
    requires DistinctBy(VersionOf, bundle) && cut <= |Pending(bundle, s)|
    ensures Ascending(VersionOf, Pending(bundle, s)[..cut])
  {
    BundleAscends(bundle);
    UnappliedAscends(SortBy(VersionOf, bundle), Elements(RowVersions(s.rows)));
  }

  // ---- the main results ----

  function Cut(cut: nat, pending: nat): nat { if cut < pending then cut else pending }

  lemma InterruptedIsReady<D>(effect: (string, D) -> D, bundle: seq<Migration>, s: State<D>, cut: nat)
    requires Refuses(bundle, s).None?
    ensures var ready := Ready(s);
            var after := Interrupted(effect, bundle, s, cut);
            && Refuses(bundle, after).None? && Ready(after) == after
            && Pending(bundle, after) == Pending(bundle, ready)[Cut(cut, |Pending(bundle, ready)|)..]
  {
    hide Refuses, Explains, Pending;
    RefusesExactly(bundle, s);
    var ready := Ready(s);
    var pending := Pending(bundle, ready);
    var k := Cut(cut, |pending|);
    var after := Interrupted(effect, bundle, s, cut);
    assert pending[..|pending|] == pending;
    assert after == ApplyAll(effect, ready, pending[..k]);
    AppliedRows(effect, ready, pending[..k]);
    PendingAscends(bundle, ready, k);
    StillExplained(effect, bundle, ready, pending[..k]);
    PendingRest(effect, bundle, ready, k);
    RefusesExactly(bundle, after);
    assert Ready(after) == after;
  }

  /**
   * Resumption. A run that failed at any migration and rolled back can be run again with the same
   * bundle: it goes ahead, and reaches the database and the ledger of one uninterrupted run.
   */
  lemma RerunReachesTheSame<D>(effect: (string, D) -> D, bundle: seq<Migration>, s: State<D>, cut: nat)
    requires Refuses(bundle, s).None?
    ensures Refuses(bundle, Interrupted(effect, bundle, s, cut)).None?
    ensures Uninterrupted(effect, bundle, Interrupted(effect, bundle, s, cut)) == Uninterrupted(effect, bundle, s)
  {
    InterruptedIsReady(effect, bundle, s, cut);
    var pending := Pending(bundle, Ready(s));
    var k := Cut(cut, |pending|);
    assert pending[..|pending|] == pending && pending == pending[..k] + pending[k..];
    ApplyInTwo(effect, Ready(s), pending[..k], pending[k..]);
  }

  ghost function InterruptedMany<D>(effect: (string, D) -> D, bundle: seq<Migration>, s: State<D>,
                                    cuts: seq<nat>): State<D>
  {
    if cuts == [] then s
    else Interrupted(effect, bundle, InterruptedMany(effect, bundle, s, cuts[..|cuts| - 1]), cuts[|cuts| - 1])
  }

  /** However often, and wherever, runs fail before one completes. */
  lemma {:induction false} AnyNumberOfFailures<D>(effect: (string, D) -> D, bundle: seq<Migration>, s: State<D>,
                                                  cuts: seq<nat>)
    requires Refuses(bundle, s).None?
    ensures Refuses(bundle, InterruptedMany(effect, bundle, s, cuts)).None?
    ensures Uninterrupted(effect, bundle, InterruptedMany(effect, bundle, s, cuts)) == Uninterrupted(effect, bundle, s)
  {
    if cuts != [] {
      AnyNumberOfFailures(effect, bundle, s, cuts[..|cuts| - 1]);
      RerunReachesTheSame(effect, bundle, InterruptedMany(effect, bundle, s, cuts[..|cuts| - 1]), cuts[|cuts| - 1]);
    }
  }

  lemma VersionsMatch<D>(bundle: seq<Migration>, ready: State<D>, v: int)
    requires DistinctBy(VersionOf, bundle) && Explains(bundle, ready.rows)
    ensures v in Elements(RowVersions(ready.rows)) + MigrationVersions(Pending(bundle, ready)) <==>
            v in MigrationVersions(bundle)
  {
    var recorded := Elements(RowVersions(ready.rows));
    if v in recorded {
      var i :| 0 <= i < |ready.rows| && RowVersions(ready.rows)[i] == v;
      assert Explained(bundle, ready.rows[i]);
    } else if v in MigrationVersions(bundle) {
      var m :| m in bundle && m.version == v;
      InPending(bundle, ready, m);
    } else if v in MigrationVersions(Pending(bundle, ready)) {
      var m :| m in Pending(bundle, ready) && m.version == v;
      InPending(bundle, ready, m);
    }
  }

  /** After success the ledger's versions are the bundle's, and a further run applies nothing and changes nothing. */
  lemma CompletedRunMatchesBundle<D>(effect: (string, D) -> D, bundle: seq<Migration>, s: State<D>)
    requires Refuses(bundle, s).None?
    ensures var after := Uninterrupted(effect, bundle, s);
            && Elements(RowVersions(after.rows)) == MigrationVersions(bundle)
            && Refuses(bundle, after).None? && Pending(bundle, after) == []
            && Uninterrupted(effect, bundle, after) == after
  {
    RefusesExactly(bundle, s);
    var ready := Ready(s);
    var pending := Pending(bundle, ready);
    InterruptedIsReady(effect, bundle, s, |pending|);
    assert pending[..|pending|] == pending;
    AppliedRows(effect, ready, pending);
    forall v
      ensures v in Elements(RowVersions(ready.rows)) + MigrationVersions(pending) <==> v in MigrationVersions(bundle)
    {
      VersionsMatch(bundle, ready, v);
    }
  }
}
