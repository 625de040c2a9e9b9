/**
 * The schedulers' leases: one row per key, acquired, renewed and released by any number of holders,
 * each reading its own clock.
 */
module SchedulerLeases {
  import opened Wrappers
  import opened Texts
  import opened Calendar
  import opened Jobs
  import JobRows

  /** Over the representation T of points in time. */
  datatype Lease<T> = Lease(holder: string, expires: T)

  datatype Action =
    | Acquire(key: string, holder: string, ttl: int, now: int)
    | Renew(key: string, holder: string, ttl: int, now: int)
    | Release(key: string, holder: string)

  type Leases = map<string, Lease<int>>

  function Check(a: Action): Option<Refusal> {
    if !ValidText(a.key, false) || !ValidText(a.holder, false) then Some(InvalidText)
    else if a.Release? then None
    else if !ValidInteger(a.ttl, 1) then Some(InvalidInteger)
    else if !InRange(a.now + a.ttl) || !InRange(a.now) then Some(InvalidTime)
    else None
  }

  /** Whether the action's statement changes a row. */
  predicate Succeeds(leases: Leases, a: Action) {
    match a
    case Acquire(key, holder, _, now) => key !in leases || leases[key].holder == holder || leases[key].expires <= now
    case Renew(key, holder, _, now) => key in leases && leases[key].holder == holder && leases[key].expires > now
    case Release(key, holder) => key in leases && leases[key].holder == holder
  }

  function Perform(leases: Leases, a: Action): Leases {
    if Check(a).Some? || !Succeeds(leases, a) then leases
    else if a.Release? then leases - {a.key}
    else leases[a.key := Lease(a.holder, a.now + a.ttl)]
  }

  // ---- every run ----

  function After(run: seq<Action>): Leases
  {
    if run == [] then map[] else Perform(After(run[..|run| - 1]), run[|run| - 1])
  }

  datatype Tenure = Held(holder: string, now: int, until: int) | Freed

  function TenureOf(leases: Leases, a: Action, key: string): seq<Tenure> {
    if a.key != key || Check(a).Some? || !Succeeds(leases, a) then []
    else if a.Release? then [Freed]
    else [Held(a.holder, a.now, a.now + a.ttl)]
  }

  /** What happened to one key: each time it was taken or extended, and each time it was given up. */
  function History(run: seq<Action>, key: string): seq<Tenure>
  {
    if run == [] then []
    else History(run[..|run| - 1], key) + TenureOf(After(run[..|run| - 1]), run[|run| - 1], key)
  }

  /** A key passes to another holder only once the last lease on it has run out by the new holder's clock. */
  ghost predicate Orderly(h: seq<Tenure>) {
    && (forall i | 0 < i < |h| && h[i - 1].Held? && h[i].Held? && h[i - 1].holder != h[i].holder ::
          h[i - 1].until <= h[i].now)
    && (forall i | 0 <= i < |h| && h[i].Held? :: h[i].now < h[i].until && InRange(h[i].now) && InRange(h[i].until))
  }

  ghost predicate Records(leases: Leases, key: string, h: seq<Tenure>) {
    if key in leases then h != [] && h[|h| - 1].Held? && leases[key] == Lease(h[|h| - 1].holder, h[|h| - 1].until)
    else h == [] || h[|h| - 1].Freed?
  }

  lemma ChecksPassed(a: Action)
    requires Check(a).None? && !a.Release?
    ensures ValidText(a.key, false) && a.ttl > 0 && InRange(a.now) && InRange(a.now + a.ttl)
  {
  }

  lemma OneMoreTenure(h: seq<Tenure>, x: Tenure)
    requires Orderly(h)
    requires x.Held? ==> x.now < x.until && InRange(x.now) && InRange(x.until)
    requires x.Held? && h != [] && h[|h| - 1].Held? && h[|h| - 1].holder != x.holder ==> h[|h| - 1].until <= x.now
    ensures Orderly(h + [x])
  {
    hide InRange;
  }

  lemma StepKeepsOrder(leases: Leases, a: Action, key: string, h: seq<Tenure>)
    requires Orderly(h) && Records(leases, key, h)
    ensures Orderly(h + TenureOf(leases, a, key)) && Records(Perform(leases, a), key, h + TenureOf(leases, a, key))
  {
    hide Orderly, InRange, ValidText, ValidInteger;
    if TenureOf(leases, a, key) == [] {
      assert h + [] == h;
    } else {
      if !a.Release? {
        ChecksPassed(a);
      }
      OneMoreTenure(h, TenureOf(leases, a, key)[0]);
    }
  }

  lemma {:induction false} EveryRunIsOrderly(run: seq<Action>, key: string)
    ensures Orderly(History(run, key)) && Records(After(run), key, History(run, key))
    ensures History(run, key) != [] ==> ValidText(key, false)
  {
    if run != [] {
      EveryRunIsOrderly(run[..|run| - 1], key);
      StepKeepsOrder(After(run[..|run| - 1]), run[|run| - 1], key, History(run[..|run| - 1], key));
    }
  }

  /** From one tenure to another, one holder has the key. */
  ghost predicate HeldThrough(h: seq<Tenure>, i: nat, j: nat)
    requires i < j <= |h|
  {
    h[i].Held? && forall k | i <= k < j :: h[k].Held? && h[k].holder == h[i].holder
  }

  /** The instants a tenure covers. */
  predicate Covers(h: Tenure, t: int)
    requires h.Held?
  {
    h.now <= t < h.until
  }

  /** No instant lies in both tenures. */
  ghost predicate Disjoint(a: Tenure, b: Tenure)
    requires a.Held? && b.Held?
  {
    forall t :: !(Covers(a, t) && Covers(b, t))
  }

  /** Another holder's acquisition of the key that would succeed now. */
  ghost predicate TakesOver(leases: Leases, a: Action, key: string, holder: string) {
    a.Acquire? && a.key == key && a.holder != holder && Check(a).None? && Succeeds(leases, a)
  }

  /**
   * One leader at a time, exactly. In every run, whatever the clocks say, while one holder has the
   * key: every acquisition by another holder that can succeed is disjoint from an earlier tenure of
   * this one if and only if that tenure does not outlast the holder's latest.
   */
  lemma LeadersAreDisjoint(run: seq<Action>, key: string, i: nat)
    requires i < |History(run, key)| && HeldThrough(History(run, key), i, |History(run, key)|)
    ensures var h := History(run, key);
            (forall a | TakesOver(After(run), a, key, h[i].holder) ::
                Disjoint(h[i], Held(a.holder, a.now, a.now + a.ttl)))
            <==> h[i].until <= h[|h| - 1].until
  {
    EveryRunIsOrderly(run, key);
    var h := History(run, key);
    var leases := After(run);
    if h[|h| - 1].until < h[i].until {
      var other := if h[i].holder == "a" then "b" else "a";
      var a := Acquire(key, other, 1, h[i].until - 1);
      assert TakesOver(leases, a, key, h[i].holder);
      assert Covers(h[i], a.now) && Covers(Held(a.holder, a.now, a.now + a.ttl), a.now);
    }
  }

  /** So two leaders of a run never overlap when the first one's tenure did not outlast its latest. */
  lemma TakeoverIsDisjoint(run: seq<Action>, key: string, i: nat, j: nat)
    requires i < j < |History(run, key)| && HeldThrough(History(run, key), i, j)
    requires History(run, key)[j].Held? && History(run, key)[j].holder != History(run, key)[i].holder
    requires History(run, key)[i].until <= History(run, key)[j - 1].until
    ensures Disjoint(History(run, key)[i], History(run, key)[j])
  {
    EveryRunIsOrderly(run, key);
  }

  /** A renewal or release by anyone but the latest holder changes nothing. */
  lemma OnlyTheHolderRenews(run: seq<Action>, a: Action)
    requires Check(a).None? && !a.Acquire?
    ensures var h := History(run, a.key);
            Succeeds(After(run), a)
            <==> h != [] && h[|h| - 1].Held? && h[|h| - 1].holder == a.holder && (a.Renew? ==> a.now < h[|h| - 1].until)
  {
    hide Orderly, Check, History, After;
    EveryRunIsOrderly(run, a.key);
  }

  /** A lease can be had when the key is free, by whoever held it last, and by others once it has run out. */
  lemma AcquiresExactlyWhen(run: seq<Action>, a: Action)
    requires a.Acquire?
    ensures var h := History(run, a.key);
            Succeeds(After(run), a)
            <==> || h == [] || h[|h| - 1].Freed?
                 || h[|h| - 1].holder == a.holder || h[|h| - 1].until <= a.now
  {
    EveryRunIsOrderly(run, a.key);
  }

  /** Every tenure is one that was asked for: by that holder, from the time it read, for as long as it asked. */
  lemma {:induction false} TenuresAreAsked(run: seq<Action>, key: string, i: nat)
    requires i < |History(run, key)| && History(run, key)[i].Held?
    ensures exists a :: a in run && !a.Release? && a.key == key
                        && History(run, key)[i] == Held(a.holder, a.now, a.now + a.ttl)
  {
    var n := |run| - 1;
    if i < |History(run[..n], key)| {
      TenuresAreAsked(run[..n], key, i);
    } else {
      assert run[n] in run;
    }
  }

  /** Which actions are refused: key and holder are texts, a lease lasts at least a millisecond. */
  lemma RefusedWhen(a: Action)
    ensures Check(a) ==
            if !JobRows.Storable(a.key, false) || !JobRows.Storable(a.holder, false) then Some(InvalidText)
            else if a.Release? then None
            else if !(1 <= a.ttl < 0x8000_0000) then Some(InvalidInteger)
            else if !JobRows.InYears(a.now) || !JobRows.InYears(a.now + a.ttl) then Some(InvalidTime)
            else None
  {
    JobRows.ChecksMean(a.key, false, 0, 0);
    JobRows.ChecksMean(a.holder, false, 0, 0);
  }

  /** A holder that acquires again with a shorter time leaves its first lease overlapping the next leader's. */
  lemma ShortenedLeaseOverlaps()
    ensures var h := History([Acquire("k", "a", 100, 0), Acquire("k", "a", 5, 10), Acquire("k", "b", 10, 20)], "k");
            && h == [Held("a", 0, 100), Held("a", 10, 15), Held("b", 20, 30)]
            && h[0].holder != h[2].holder && !Disjoint(h[0], h[2])
  {
    var a, b, c := Acquire("k", "a", 100, 0), Acquire("k", "a", 5, 10), Acquire("k", "b", 10, 20);
    assert [a, b, c][..2] == [a, b] && [a, b][..1] == [a] && [a][..0] == [];
    assert After([a]) == map["k" := Lease("a", 100)];
    assert After([a, b]) == map["k" := Lease("a", 15)];
    assert History([a], "k") == [Held("a", 0, 100)];
    assert History([a, b], "k") == [Held("a", 0, 100), Held("a", 10, 15)];
    assert Covers(Held("a", 0, 100), 20) && Covers(Held("b", 20, 30), 20);
  }

  // ---- the table as SQLite keeps it ----

  ghost predicate StandsFor(text: map<string, Lease<string>>, leases: Leases) {
    && (forall key :: key in text <==> key in leases)
    && (forall key | key in leases ::
          InRange(leases[key].expires) && text[key] == Lease(leases[key].holder, Iso(leases[key].expires)))
  }

  lemma StandsForAt(text: map<string, Lease<string>>, leases: Leases, key: string)
    requires StandsFor(text, leases)
    ensures key in text <==> key in leases
    ensures key in leases ==>
              InRange(leases[key].expires) && text[key] == Lease(leases[key].holder, Iso(leases[key].expires))
  {
  }

  lemma PutLease(text: map<string, Lease<string>>, leases: Leases, key: string, holder: string, expires: int)
    requires StandsFor(text, leases) && InRange(expires)
    ensures StandsFor(text[key := Lease(holder, Iso(expires))], leases[key := Lease(holder, expires)])
  {
    hide Iso;
  }

  lemma DropLease(text: map<string, Lease<string>>, leases: Leases, key: string)
    requires StandsFor(text, leases)
    ensures StandsFor(text - {key}, leases - {key})
  {
    hide Iso;
  }

  class LeaseTable {
    var rows: map<string, Lease<string>>
    ghost var run: seq<Action>

    ghost predicate Valid()
      reads this
    {
      StandsFor(rows, After(run))
    }

    constructor ()
      ensures Valid() && run == []
    {
      rows, run := map[], [];
    }

    /** One statement, comparing expiry times as text. */
    method Do(a: Action) returns (r: Result<bool, Refusal>)
      requires Valid()
      modifies this
      ensures Valid() && run == old(run) + [a]
      ensures r == match Check(a)
                   case Some(refusal) => Failure(refusal)
                   case None => Success(Succeeds(After(old(run)), a))
    {
      hide Iso, StandsFor, Less;
      ghost var leases := After(run);
      assert (run + [a])[..|run|] == run;
      run := run + [a];
      if Check(a).Some? {
        return Failure(Check(a).value);
      }
      StandsForAt(rows, leases, a.key);
      if a.key in leases && !a.Release? {
        IsoOrders(leases[a.key].expires, a.now);
        IsoOrders(a.now, leases[a.key].expires);
      }
      match a {
        case Acquire(key, holder, ttl, now) =>
          if key in rows && rows[key].holder != holder && !AtMost(rows[key].expires, Iso(now)) {
            return Success(false);
          }
          PutLease(rows, leases, key, holder, now + ttl);
          rows := rows[key := Lease(holder, Iso(now + ttl))];
        case Renew(key, holder, ttl, now) =>
          if key !in rows || rows[key].holder != holder || !Less(Iso(now), rows[key].expires) {
            return Success(false);
          }
          PutLease(rows, leases, key, holder, now + ttl);
          rows := rows[key := Lease(holder, Iso(now + ttl))];
        case Release(key, holder) =>
          if key !in rows || rows[key].holder != holder {
            return Success(false);
          }
          DropLease(rows, leases, key);
          rows := rows - {key};
      }
      return Success(true);
    }
  }
}
