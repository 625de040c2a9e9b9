/**
 * What a bundle-resident run refuses, and what it leaves in the database, in terms of the bundle, the
 * ledger's columns and its rows themselves.
 */
module EmbeddedFacts {
  import opened Wrappers
  import opened Sequences
  import opened Sorting
  import opened Versions
  import opened Embedded

  // ---- making the ledger ready ----

  /** A missing ledger is created empty, and one without checksums gains a column of none; the rest stays. */
  lemma ReadyMeans<D>(s: State<D>)
    ensures var t := Ready(s);
            && t.data == s.data && t.columns.Some?
            && (s.columns.None? ==> t.rows == [] && t.columns.value == {"version", "name", "applied_at", "checksum"})
            && (s.columns.Some? ==> t.columns.value == s.columns.value + {"checksum"} && |t.rows| == |s.rows|)
            && (s.columns.Some? && "checksum" in s.columns.value ==> t.rows == s.rows)
            && (s.columns.Some? && "checksum" !in s.columns.value ==>
                forall i | 0 <= i < |s.rows| ::
                  t.rows[i].version == s.rows[i].version && t.rows[i].name == s.rows[i].name
                  && t.rows[i].checksum.None?)
  {
    if s.columns.Some? && "checksum" in s.columns.value {
      assert s.columns.value == s.columns.value + {"checksum"};
    }
  }

  // ---- what is refused, and as what ----

  /** A ledger table that is there has the columns a run needs. */
  ghost predicate HasColumns(columns: Option<set<string>>) {
    columns.Some? ==> "version" in columns.value && "name" in columns.value && "applied_at" in columns.value
  }

  ghost predicate InOrder(bundle: seq<Migration>) {
    DistinctBy(VersionOf, bundle) && forall m | m in bundle :: Safe(m.version)
  }

  ghost predicate Readable(rows: seq<LedgerRow>) {
    DistinctBy(RowVersion, rows) && forall r | r in rows :: Safe(r.version)
  }

  /** The bundle has this version with another checksum. */
  ghost predicate Changed(bundle: seq<Migration>, r: LedgerRow) {
    exists m | m in bundle :: m.version == r.version && r.checksum.Some? && r.checksum.value != m.checksum
  }

  ghost predicate Known(bundle: seq<Migration>, r: LedgerRow) {
    exists m | m in bundle :: m.version == r.version
  }

  /** The row of that version is changed, and no row of a smaller version is. */
  ghost predicate FirstChanged(bundle: seq<Migration>, rows: seq<LedgerRow>, version: int) {
    && (exists r | r in rows :: r.version == version && Changed(bundle, r))
    && forall r | r in rows && r.version < version :: !Changed(bundle, r)
  }

  ghost predicate FirstAhead(bundle: seq<Migration>, rows: seq<LedgerRow>, version: int) {
    && (exists r | r in rows :: r.version == version && !Known(bundle, r))
    && forall r | r in rows && r.version < version :: Known(bundle, r)
  }

  lemma DiffersMeansChanged(bundle: seq<Migration>, r: LedgerRow)
    requires DistinctBy(VersionOf, bundle)
    ensures Differs(r, IndexBy(VersionOf, bundle)) <==> Changed(bundle, r)
    ensures r.version in IndexBy(VersionOf, bundle) <==> Known(bundle, r)
  {
    var byVersion := IndexBy(VersionOf, bundle);
    if r.version in byVersion {
      IndexByFinds(VersionOf, bundle, r.version);
    }
    forall m | m in bundle && m.version == r.version
      ensures r.version in byVersion && byVersion[r.version] == m
    {
      IndexByUnique(VersionOf, bundle, m);
    }
  }

  /** The first row of a ledger that differs, and the first that is unknown. */
  lemma {:induction false} FirstOnes(rows: seq<LedgerRow>, byVersion: map<int, Migration>)
    ensures match FirstDifference(rows, byVersion)
            case None => forall r | r in rows :: !Differs(r, byVersion)
            case Some(x) =>
              exists i :: 0 <= i < |rows| && Differs(rows[i], byVersion) && x == ChecksumDiffers(rows[i].version)
                          && forall j | 0 <= j < i :: !Differs(rows[j], byVersion)
    ensures match FirstUnknown(rows, byVersion)
            case None => forall r | r in rows :: r.version in byVersion
            case Some(x) =>
              exists i :: 0 <= i < |rows| && rows[i].version !in byVersion && x == LedgerAhead(rows[i].version)
                          && forall j | 0 <= j < i :: rows[j].version in byVersion
  {
    hide Differs;
    if rows != [] {
      var k := |rows| - 1;
      FirstOnes(rows[..k], byVersion);
      assert forall j | 0 <= j < k :: rows[j] == rows[..k][j];
      assert forall r :: r in rows <==> r in rows[..k] || r == rows[k] by {
        assert rows == rows[..k] + [rows[k]];
      }
    }
  }

  lemma SortedOnce(sorted: seq<LedgerRow>, i: nat, j: nat)
    requires SortedBy(RowVersion, sorted) && i < |sorted| && j < |sorted| && sorted[j].version < sorted[i].version
    ensures j < i
  {
    assert RowVersion(sorted[i]) > RowVersion(sorted[j]);
  }

  lemma EarlierIsSmaller(rows: seq<LedgerRow>, sorted: seq<LedgerRow>, i: nat, r: LedgerRow)
    requires sorted == SortBy(RowVersion, rows) && i < |sorted| && r in rows && r.version < sorted[i].version
    ensures exists j :: 0 <= j < i && sorted[j] == r
  {
    hide SortBy;
    InSorted(RowVersion, rows, r);
    SortBySorts(RowVersion, rows);
    var j :| 0 <= j < |sorted| && sorted[j] == r;
    SortedOnce(sorted, i, j);
  }

  lemma ChangedFirst(bundle: seq<Migration>, rows: seq<LedgerRow>)
    requires DistinctBy(VersionOf, bundle)
    ensures var x := FirstDifference(SortBy(RowVersion, rows), IndexBy(VersionOf, bundle));
            if x.None? then forall r | r in rows :: !Changed(bundle, r)
            else x.value.ChecksumDiffers? && FirstChanged(bundle, rows, x.value.version)
  {
    hide Changed, SortBy, IndexBy, Differs;
    var sorted, byVersion := SortBy(RowVersion, rows), IndexBy(VersionOf, bundle);
    FirstOnes(sorted, byVersion);
    forall r | r in rows
      ensures Differs(r, byVersion) <==> Changed(bundle, r)
    {
      DiffersMeansChanged(bundle, r);
    }
    forall r
      ensures r in sorted <==> r in rows
    {
      InSorted(RowVersion, rows, r);
    }
    if FirstDifference(sorted, byVersion).Some? {
      var i :| 0 <= i < |sorted| && Differs(sorted[i], byVersion)
               && FirstDifference(sorted, byVersion).value == ChecksumDiffers(sorted[i].version)
               && forall j | 0 <= j < i :: !Differs(sorted[j], byVersion);
      forall r | r in rows && r.version < sorted[i].version
        ensures !Changed(bundle, r)
      {
        EarlierIsSmaller(rows, sorted, i, r);
      }
      assert sorted[i] in sorted;
    }
  }

  lemma AheadFirst(bundle: seq<Migration>, rows: seq<LedgerRow>)
    requires DistinctBy(VersionOf, bundle)
    ensures var x := FirstUnknown(SortBy(RowVersion, rows), IndexBy(VersionOf, bundle));
            if x.None? then forall r | r in rows :: Known(bundle, r)
            else x.value.LedgerAhead? && FirstAhead(bundle, rows, x.value.version)
  {
    hide Known, SortBy, IndexBy;
    var sorted, byVersion := SortBy(RowVersion, rows), IndexBy(VersionOf, bundle);
    FirstOnes(sorted, byVersion);
    forall r | r in rows
      ensures r.version in byVersion <==> Known(bundle, r)
    {
      DiffersMeansChanged(bundle, r);
    }
    forall r
      ensures r in sorted <==> r in rows
    {
      InSorted(RowVersion, rows, r);
    }
    if FirstUnknown(sorted, byVersion).Some? {
      var i :| 0 <= i < |sorted| && sorted[i].version !in byVersion
               && FirstUnknown(sorted, byVersion).value == LedgerAhead(sorted[i].version)
               && forall j | 0 <= j < i :: sorted[j].version in byVersion;
      forall r | r in rows && r.version < sorted[i].version
        ensures Known(bundle, r)
      {
        EarlierIsSmaller(rows, sorted, i, r);
      }
      assert sorted[i] in sorted;
    }
  }

  lemma SortedReadable(rows: seq<LedgerRow>)
    ensures RowsProblem(SortBy(RowVersion, rows)) == if Readable(rows) then None else Some(BadShape)
  {
    RowsAcceptedWhen(SortBy(RowVersion, rows));
    SameDistinctness(RowVersion, rows);
    forall r
      ensures r in SortBy(RowVersion, rows) <==> r in rows
    {
      InSorted(RowVersion, rows, r);
    }
  }

  /** The first version of a bundle that is no safe integer or a repetition. */
  lemma BundleProblemIs(bundle: seq<Migration>)
    ensures BundleProblem(bundle).None? <==> InOrder(bundle)
    ensures match BundleProblem(bundle)
            case None => true
            case Some(DuplicateVersion(v)) =>
              exists i, j :: 0 <= i < j < |bundle| && bundle[i].version == bundle[j].version == v
            case Some(BadShape) => exists m :: m in bundle && !Safe(m.version)
            case Some(_) => false
  {
    BundleAcceptedWhen(bundle);
    FirstBadIs(VersionsOf(bundle));
  }

  lemma OrderedIsDistinct(bundle: seq<Migration>)
    requires InOrder(bundle)
    ensures DistinctBy(VersionOf, bundle)
  {
  }

  /** Which refusal it is, in the order in which a run checks, each with the version it names. */
  lemma RefusalsAreNamed<D>(bundle: seq<Migration>, s: State<D>)
    ensures var rows := Ready(s).rows;
            match Refuses(bundle, s)
            case None => InOrder(bundle) && HasColumns(s.columns) && Readable(rows)
                         && forall r | r in rows :: Known(bundle, r) && !Changed(bundle, r)
            case Some(DuplicateVersion(v)) =>
              exists i, j :: 0 <= i < j < |bundle| && bundle[i].version == bundle[j].version == v
            case Some(BadShape) =>
              || (exists m :: m in bundle && !Safe(m.version))
              || (InOrder(bundle) && !(HasColumns(s.columns) && Readable(rows)))
            case Some(ChecksumDiffers(v)) =>
              InOrder(bundle) && HasColumns(s.columns) && Readable(rows) && FirstChanged(bundle, rows, v)
            case Some(LedgerAhead(v)) =>
              && InOrder(bundle) && HasColumns(s.columns) && Readable(rows)
              && (forall r | r in rows :: !Changed(bundle, r)) && FirstAhead(bundle, rows, v)
  {
    hide Changed, Known, SortBy, IndexBy, FirstDifference, FirstUnknown, RowsProblem, BundleProblem, Ready;
    hide FirstChanged, FirstAhead, InOrder, Readable;
    BundleProblemIs(bundle);
    assert ReadyFor(s.columns) <==> HasColumns(s.columns);
    SortedReadable(Ready(s).rows);
    if BundleProblem(bundle).None? {
      OrderedIsDistinct(bundle);
      ChangedFirst(bundle, Ready(s).rows);
      AheadFirst(bundle, Ready(s).rows);
    }
  }

  // ---- what a completed run leaves ----

  function Ups(ms: seq<Migration>): seq<string>
  {
    if ms == [] then [] else Ups(ms[..|ms| - 1]) + [ms[|ms| - 1].up]
  }

  /** The row a migration leaves. */
  ghost predicate Records(m: Migration, r: LedgerRow) {
    r.version == m.version && r.name == m.name && r.checksum == Some(m.checksum)
  }

  lemma {:induction false} ApplyingLeaves<D>(effect: (string, D) -> D, s: State<D>, ms: seq<Migration>)
    ensures var t := ApplyAll(effect, s, ms);
            && t.data == Folded(effect, Ups(ms), s.data) && t.columns == s.columns
            && s.rows <= t.rows && |t.rows| == |s.rows| + |ms|
            && forall i | 0 <= i < |ms| :: Records(ms[i], t.rows[|s.rows| + i])
  {
    if ms != [] {
      var k := |ms| - 1;
      ApplyingLeaves(effect, s, ms[..k]);
      assert Ups(ms)[..|Ups(ms)| - 1] == Ups(ms[..k]);
      assert forall i | 0 <= i < k :: ms[..k][i] == ms[i];
    }
  }

  lemma RecordedWhen(rows: seq<LedgerRow>, version: int)
    ensures version in Elements(RowVersions(rows)) <==> exists r | r in rows :: r.version == version
  {
    if version in RowVersions(rows) {
      var i :| 0 <= i < |rows| && RowVersions(rows)[i] == version;
      assert rows[i] in rows;
    }
    if r :| r in rows && r.version == version {
      VersionRecorded(rows, r);
    }
  }

  /**
   * What a completed run leaves: the rows there were and, behind them, one for each migration of the bundle
   * that had none, ascending, each with its name and checksum; and the data after just their up texts.
   */
  lemma CompletedRunRecords<D>(effect: (string, D) -> D, bundle: seq<Migration>, s: State<D>)
    returns (ms: seq<Migration>)
    requires Refuses(bundle, s).None?
    ensures var ready, after := Ready(s), Uninterrupted(effect, bundle, s);
            && after.data == Folded(effect, Ups(ms), s.data)
            && ready.rows <= after.rows && |after.rows| == |ready.rows| + |ms|
            && forall i | 0 <= i < |ms| :: Records(ms[i], after.rows[|ready.rows| + i])
    ensures Ascending(VersionOf, ms)
    ensures forall m :: m in ms <==> m in bundle && forall r | r in Ready(s).rows :: r.version != m.version
  {
    hide Pending, ApplyAll, Refuses, Explains;
    var ready := Ready(s);
    ms := Pending(bundle, ready);
    RefusesExactly(bundle, s);
    ReadyMeans(s);
    PendingAscends(bundle, ready, |ms|);
    assert ms[..|ms|] == ms;
    ApplyingLeaves(effect, ready, ms);
    forall m
      ensures m in ms <==> m in bundle && forall r | r in ready.rows :: r.version != m.version
    {
      InPending(bundle, ready, m);
      RecordedWhen(ready.rows, m.version);
    }
  }

  lemma StaysReady<D>(effect: (string, D) -> D, bundle: seq<Migration>, s: State<D>)
    ensures Ready(Uninterrupted(effect, bundle, s)) == Uninterrupted(effect, bundle, s)
  {
    ReadyMeans(s);
    ApplyingLeaves(effect, Ready(s), Pending(bundle, Ready(s)));
  }

  lemma AppliedIsRecorded<D>(effect: (string, D) -> D, bundle: seq<Migration>, s: State<D>, m: Migration)
    requires Refuses(bundle, s).None?
    requires m in bundle && (forall r | r in Ready(s).rows :: r.version != m.version)
    ensures exists r :: r in Uninterrupted(effect, bundle, s).rows && Records(m, r)
  {
    var ready := Ready(s);
    var ms := Pending(bundle, ready);
    RefusesExactly(bundle, s);
    InPending(bundle, ready, m);
    RecordedWhen(ready.rows, m.version);
    ApplyingLeaves(effect, ready, ms);
    var i :| 0 <= i < |ms| && ms[i] == m;
    assert Uninterrupted(effect, bundle, s).rows[|ready.rows| + i] in Uninterrupted(effect, bundle, s).rows;
  }

  /** After a completed run, a bundle in which one of the migrations it applied has another checksum is refused. */
  lemma EditsAreRefused<D>(effect: (string, D) -> D, bundle: seq<Migration>, s: State<D>, edited: seq<Migration>,
                           first: Migration, second: Migration)
    requires Refuses(bundle, s).None? && InOrder(edited)
    requires first in bundle && (forall r | r in Ready(s).rows :: r.version != first.version)
    requires second in edited && second.version == first.version && second.checksum != first.checksum
    ensures var after := Uninterrupted(effect, bundle, s);
            && Refuses(edited, after).Some? && Refuses(edited, after).value.ChecksumDiffers?
            && FirstChanged(edited, after.rows, Refuses(edited, after).value.version)
  {
    var after := Uninterrupted(effect, bundle, s);
    CompletedRunMatchesBundle(effect, bundle, s);
    RefusesExactly(bundle, after);
    StaysReady(effect, bundle, s);
    RefusalsAreNamed(bundle, after);
    RefusalsAreNamed(edited, after);
    AppliedIsRecorded(effect, bundle, s, first);
    var r :| r in after.rows && Records(first, r);
    assert Changed(edited, r);
  }
}
