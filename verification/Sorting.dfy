/** `toSorted` by an integer key: ascending, and stable for equal keys. */
module Sorting {
  import opened Sequences

  ghost predicate SortedBy<T>(key: T -> int, s: seq<T>) {
    forall i, j | 0 <= i < j < |s| :: key(s[i]) <= key(s[j])
  }

  /** Strictly ascending: sorted, and no two elements share a key. */
  ghost predicate Ascending<T>(key: T -> int, s: seq<T>) {
    forall i, j | 0 <= i < j < |s| :: key(s[i]) < key(s[j])
  }

  /** Places an element behind all that are not greater. */
  function InsertBy<T>(key: T -> int, s: seq<T>, t: T): seq<T>
  {
    if s == [] then [t]
    else if key(s[|s| - 1]) <= key(t) then s + [t]
    else InsertBy(key, s[..|s| - 1], t) + [s[|s| - 1]]
  }

  function SortBy<T>(key: T -> int, s: seq<T>): seq<T>
  {
    if s == [] then [] else InsertBy(key, SortBy(key, s[..|s| - 1]), s[|s| - 1])
  }

  lemma {:induction false} InsertByMembers<T>(key: T -> int, s: seq<T>, t: T)
    ensures multiset(InsertBy(key, s, t)) == multiset(s) + multiset{t}
  {
    if s != [] {
      var k := |s| - 1;
      assert s == s[..k] + [s[k]];
      InsertByMembers(key, s[..k], t);
    }
  }

  lemma {:induction false} InInserted<T>(key: T -> int, s: seq<T>, t: T, x: T)
    ensures x in InsertBy(key, s, t) <==> x in s || x == t
  {
    if s != [] {
      var k := |s| - 1;
      assert s == s[..k] + [s[k]];
      InInserted(key, s[..k], t, x);
    }
  }

  lemma AscendingSnoc<T>(key: T -> int, s: seq<T>, t: T)
    requires Ascending(key, s) && forall x | x in s :: key(x) < key(t)
    ensures Ascending(key, s + [t])
  {
  }

  lemma AscendingPrefix<T>(key: T -> int, s: seq<T>, k: nat)
    requires Ascending(key, s) && k <= |s|
    ensures Ascending(key, s[..k])
  {
  }

  lemma {:induction false} InsertBySorted<T>(key: T -> int, s: seq<T>, t: T)
    requires SortedBy(key, s)
    ensures SortedBy(key, InsertBy(key, s, t))
  {
    if s != [] {
      var k := |s| - 1;
      if key(s[k]) <= key(t) {
        assert forall x | x in s :: key(x) <= key(t);
      } else {
        InsertBySorted(key, s[..k], t);
        forall x | x in InsertBy(key, s[..k], t)
          ensures key(x) <= key(s[k])
        {
          InInserted(key, s[..k], t, x);
        }
      }
    }
  }

  lemma {:induction false} SortByMembers<T>(key: T -> int, s: seq<T>)
    ensures multiset(SortBy(key, s)) == multiset(s)
  {
    if s != [] {
      var k := |s| - 1;
      assert s == s[..k] + [s[k]];
      SortByMembers(key, s[..k]);
      InsertByMembers(key, SortBy(key, s[..k]), s[k]);
    }
  }

  lemma {:induction false} SortBySorts<T>(key: T -> int, s: seq<T>)
    ensures SortedBy(key, SortBy(key, s))
  {
    if s != [] {
      SortBySorts(key, s[..|s| - 1]);
      InsertBySorted(key, SortBy(key, s[..|s| - 1]), s[|s| - 1]);
    }
  }

  lemma InSorted<T>(key: T -> int, s: seq<T>, t: T)
    ensures t in SortBy(key, s) <==> t in s
  {
    SortByMembers(key, s);
    assert t in SortBy(key, s) <==> t in multiset(SortBy(key, s));
    assert t in s <==> t in multiset(s);
  }

  lemma {:induction false} InsertByAscends<T>(key: T -> int, s: seq<T>, t: T)
    requires Ascending(key, s) && forall x | x in s :: key(x) != key(t)
    ensures Ascending(key, InsertBy(key, s, t))
  {
    if s != [] {
      var k := |s| - 1;
      assert s[k] in s;
      if key(s[k]) <= key(t) {
        assert forall x | x in s :: key(x) < key(t);
        AscendingSnoc(key, s, t);
      } else {
        InsertByAscends(key, s[..k], t);
        forall x | x in InsertBy(key, s[..k], t)
          ensures key(x) < key(s[k])
        {
          InInserted(key, s[..k], t, x);
        }
        AscendingSnoc(key, InsertBy(key, s[..k], t), s[k]);
      }
    }
  }

  /** Without equal keys the order is strict. */
  lemma {:induction false} SortByAscends<T>(key: T -> int, s: seq<T>)
    requires DistinctBy(key, s)
    ensures Ascending(key, SortBy(key, s))
  {
    if s != [] {
      var k := |s| - 1;
      SortByAscends(key, s[..k]);
      forall x | x in SortBy(key, s[..k])
        ensures key(x) != key(s[k])
      {
        InSorted(key, s[..k], x);
        var i :| 0 <= i < k && s[..k][i] == x;
        assert key(s[i]) != key(s[k]);
      }
      InsertByAscends(key, SortBy(key, s[..k]), s[k]);
    }
  }

  lemma {:induction false} DistinctCounts<T>(s: seq<T>, t: T)
    requires Distinct(s)
    ensures multiset(s)[t] <= 1
  {
    if s != [] {
      var k := |s| - 1;
      assert s == s[..k] + [s[k]];
      DistinctCounts(s[..k], t);
    }
  }

  lemma TwiceCounts<T>(s: seq<T>, i: nat, j: nat)
    requires i < j < |s| && s[i] == s[j]
    ensures multiset(s)[s[i]] >= 2
  {
    assert s == s[..j] + [s[j]] + s[j + 1..];
    assert s[i] in s[..j];
  }

  lemma PermutationKeepsDistinct<T>(key: T -> int, a: seq<T>, b: seq<T>)
    requires multiset(a) == multiset(b) && DistinctBy(key, a)
    ensures DistinctBy(key, b)
  {
    forall i, j | 0 <= i < j < |b|
      ensures key(b[i]) != key(b[j])
    {
      assert b[i] in multiset(a) && b[j] in multiset(a);
      var x :| 0 <= x < |a| && a[x] == b[i];
      var y :| 0 <= y < |a| && a[y] == b[j];
      if x == y {
        TwiceCounts(b, i, j);
        assert Distinct(a) by {
          assert forall p, q | 0 <= p < q < |a| :: key(a[p]) != key(a[q]);
        }
        DistinctCounts(a, b[i]);
      }
    }
  }

  lemma SameDistinctness<T>(key: T -> int, s: seq<T>)
    ensures DistinctBy(key, SortBy(key, s)) <==> DistinctBy(key, s)
  {
    SortByMembers(key, s);
    if DistinctBy(key, s) {
      PermutationKeepsDistinct(key, s, SortBy(key, s));
    }
    if DistinctBy(key, SortBy(key, s)) {
      PermutationKeepsDistinct(key, SortBy(key, s), s);
    }
  }
}
