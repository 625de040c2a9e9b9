/** Facts about sequences that more than one component needs. */
module Sequences {

  ghost predicate Distinct<T>(s: seq<T>)
  {
    forall i, j :: 0 <= i < j < |s| ==> s[i] != s[j]
  }

  /** Distinct up to a key: no two elements share one. */
  ghost predicate DistinctBy<T, K>(key: T -> K, s: seq<T>)
  {
    forall i, j :: 0 <= i < j < |s| ==> key(s[i]) != key(s[j])
  }

  function Elements<T>(s: seq<T>): set<T>
  {
    set x | x in s
  }

  /** A function applied for each element in turn, the first one first. */
  function Folded<T, A>(f: (T, A) -> A, s: seq<T>, a: A): A
  {
    if s == [] then a else f(s[|s| - 1], Folded(f, s[..|s| - 1], a))
  }

  lemma ElementsTake<T>(s: seq<T>, i: nat)
    requires i < |s|
    ensures Elements(s[..i + 1]) == Elements(s[..i]) + {s[i]}
    ensures Distinct(s) ==> s[i] !in Elements(s[..i])
  {
    assert s[..i + 1] == s[..i] + [s[i]];
  }

  /** The slices of a concatenation at a point in its first part. */
  lemma SlicesOfConcat<T>(a: seq<T>, b: seq<T>, k: nat)
    requires k <= |a|
    ensures (a + b)[..k] == a[..k] && (a + b)[k..] == a[k..] + b
    ensures k == |a| ==> (a + b)[..k] == a && (a + b)[k..] == b
  {
  }

  lemma SliceOfSlice<T>(s: seq<T>, i: nat, j: nat)
    requires i <= j <= |s|
    ensures s[..j][..i] == s[..i] && s[..j][i..] == s[i..j]
    ensures j < |s| ==> s[i..j + 1] == s[i..j] + [s[j]]
  {
  }

  function Reverse<T>(s: seq<T>): (r: seq<T>)
    ensures |r| == |s|
    ensures forall i :: 0 <= i < |s| ==> r[i] == s[|s| - 1 - i]
  {
    if s == [] then [] else Reverse(s[1..]) + [s[0]]
  }

  /** The insertion-ordered `new Map(entries)`: a later entry replaces an earlier one. */
  function IndexBy<K, V>(key: V -> K, s: seq<V>): map<K, V>
  {
    if s == [] then map[] else map[key(s[0]) := s[0]] + IndexBy(key, s[1..])
  }

  lemma {:induction false} IndexByHolds<K, V>(key: V -> K, s: seq<V>, v: V)
    requires v in s
    ensures key(v) in IndexBy(key, s)
  {
    if s[0] != v {
      IndexByHolds(key, s[1..], v);
    }
  }

  lemma {:induction false} IndexByFinds<K, V>(key: V -> K, s: seq<V>, k: K)
    requires k in IndexBy(key, s)
    ensures IndexBy(key, s)[k] in s && key(IndexBy(key, s)[k]) == k
  {
    if k in IndexBy(key, s[1..]) {
      IndexByFinds(key, s[1..], k);
    }
  }

  lemma {:induction false} IndexByUnique<K, V>(key: V -> K, s: seq<V>, v: V)
    requires DistinctBy(key, s) && v in s
    ensures key(v) in IndexBy(key, s) && IndexBy(key, s)[key(v)] == v
  {
    IndexByHolds(key, s, v);
    IndexByFinds(key, s, key(v));
    var m := IndexBy(key, s);
    assert m[key(v)] in s;
    var i :| 0 <= i < |s| && s[i] == v;
    var j :| 0 <= j < |s| && s[j] == m[key(v)];
    assert key(s[i]) == key(s[j]);
  }

  /** `map.set` on the entries in insertion order: a known key keeps its place and takes the new value. */
  function EnterIn<K(==), V>(key: V -> K, entries: seq<V>, v: V): seq<V>
  {
    if entries == [] then [v]
    else if key(entries[0]) == key(v) then [v] + entries[1..]
    else [entries[0]] + EnterIn(key, entries[1..], v)
  }

  /** `new Map(entries).values()`. */
  function Merged<K(==), V>(key: V -> K, s: seq<V>): seq<V>
  {
    if s == [] then [] else EnterIn(key, Merged(key, s[..|s| - 1]), s[|s| - 1])
  }

  lemma {:induction false} EnteredMembers<K, V>(key: V -> K, entries: seq<V>, v: V, x: V)
    ensures x in EnterIn(key, entries, v) ==> x in entries || x == v
  {
    if entries != [] {
      EnteredMembers(key, entries[1..], v, x);
    }
  }

  lemma HeadDiffers<K, V>(key: V -> K, s: seq<V>)
    requires s != [] && DistinctBy(key, s[1..]) && forall x | x in s[1..] :: key(x) != key(s[0])
    ensures DistinctBy(key, s)
  {
    forall i, j | 0 <= i < j < |s|
      ensures key(s[i]) != key(s[j])
    {
      assert s[j] == s[1..][j - 1];
      if i == 0 {
        assert s[j] in s[1..];
      } else {
        assert s[i] == s[1..][i - 1];
      }
    }
  }

  lemma {:induction false} EnterKeepsDistinct<K, V>(key: V -> K, entries: seq<V>, v: V)
    requires DistinctBy(key, entries)
    ensures DistinctBy(key, EnterIn(key, entries, v))
    ensures (forall e | e in entries :: key(e) != key(v)) ==> EnterIn(key, entries, v) == entries + [v]
  {
    if entries != [] {
      var rest := entries[1..];
      assert DistinctBy(key, rest) by {
        forall i, j | 0 <= i < j < |rest| ensures key(rest[i]) != key(rest[j]) {
          assert key(entries[i + 1]) != key(entries[j + 1]);
        }
      }
      EnterKeepsDistinct(key, rest, v);
      forall e | e in rest
        ensures key(e) != key(entries[0])
      {
        var j :| 0 <= j < |rest| && rest[j] == e;
        assert key(entries[0]) != key(entries[j + 1]);
      }
      forall x | x in EnterIn(key, rest, v) && key(entries[0]) != key(v)
        ensures key(x) != key(entries[0])
      {
        EnteredMembers(key, rest, v, x);
      }
      var after := EnterIn(key, entries, v);
      if key(entries[0]) == key(v) {
        assert after[1..] == rest;
      } else {
        assert after[1..] == EnterIn(key, rest, v);
      }
      HeadDiffers(key, after);
    }
  }

  lemma {:induction false} MergedDistinct<K, V>(key: V -> K, s: seq<V>)
    ensures DistinctBy(key, Merged(key, s))
  {
    if s != [] {
      MergedDistinct(key, s[..|s| - 1]);
      EnterKeepsDistinct(key, Merged(key, s[..|s| - 1]), s[|s| - 1]);
    }
  }

  /** Where no key occurs twice, merging changes nothing. */
  lemma {:induction false} MergedIsItself<K, V>(key: V -> K, s: seq<V>)
    requires DistinctBy(key, s)
    ensures Merged(key, s) == s
  {
    if s != [] {
      var k := |s| - 1;
      MergedIsItself(key, s[..k]);
      assert forall i | 0 <= i < k :: key(s[i]) != key(s[k]);
      EnterKeepsDistinct(key, s[..k], s[k]);
      assert s == s[..k] + [s[k]];
    }
  }

  /** `[...new Set(s)]`: each element once, where it first occurs. */
  function FirstOccurrences<T(==)>(s: seq<T>): (unique: seq<T>)
    ensures (forall x | x in unique :: x in s) && (forall x | x in s :: x in unique)
    ensures Distinct(unique)
  {
    if s == [] then []
    else
      var k := |s| - 1;
      var rest := FirstOccurrences(s[..k]);
      assert s == s[..k] + [s[k]];
      if s[k] in rest then rest else rest + [s[k]]
  }

  /** What comes first stays first. */
  lemma {:induction false} FirstOccurrencesInOrder<T>(a: seq<T>, b: seq<T>)
    ensures FirstOccurrences(a) <= FirstOccurrences(a + b)
  {
    if b == [] {
      assert a + b == a;
    } else {
      FirstOccurrencesInOrder(a, b[..|b| - 1]);
      assert (a + b)[..|a + b| - 1] == a + b[..|b| - 1];
    }
  }

  lemma {:induction false} NotIndexed<K, V>(key: V -> K, s: seq<V>, k: K)
    requires forall j | 0 <= j < |s| :: key(s[j]) != k
    ensures k !in IndexBy(key, s)
  {
    if s != [] {
      assert forall j | 0 <= j < |s[1..]| :: s[1..][j] == s[j + 1];
      NotIndexed(key, s[1..], k);
    }
  }

  /** A later entry wins. */
  lemma {:induction false} IndexByLast<K, V>(key: V -> K, s: seq<V>, i: nat)
    requires i < |s| && forall j | i < j < |s| :: key(s[j]) != key(s[i])
    ensures key(s[i]) in IndexBy(key, s) && IndexBy(key, s)[key(s[i])] == s[i]
  {
    assert forall j | 0 <= j < |s[1..]| :: s[1..][j] == s[j + 1];
    if i > 0 {
      IndexByLast(key, s[1..], i - 1);
    } else {
      NotIndexed(key, s[1..], key(s[0]));
    }
  }

  function KeysOf<K, V>(key: V -> K, s: seq<V>): (keys: seq<K>)
    ensures |keys| == |s| && forall i | 0 <= i < |s| :: keys[i] == key(s[i])
  {
    if s == [] then [] else KeysOf(key, s[..|s| - 1]) + [key(s[|s| - 1])]
  }

  lemma {:induction false} EnteredKeys<K, V>(key: V -> K, entries: seq<V>, v: V)
    ensures KeysOf(key, EnterIn(key, entries, v)) ==
            if key(v) in KeysOf(key, entries) then KeysOf(key, entries) else KeysOf(key, entries) + [key(v)]
  {
    hide KeysOf;
    if entries != [] {
      var rest := entries[1..];
      assert KeysOf(key, entries) == [key(entries[0])] + KeysOf(key, rest);
      if key(entries[0]) != key(v) {
        EnteredKeys(key, rest, v);
      } else {
        assert key(v) in KeysOf(key, entries);
      }
    }
  }

  lemma {:induction false} EnteredStays<K, V>(key: V -> K, entries: seq<V>, v: V, x: V)
    requires x == v || (x in entries && key(x) != key(v))
    ensures x in EnterIn(key, entries, v)
  {
    if entries != [] && key(entries[0]) != key(v) {
      if x == v || x in entries[1..] {
        EnteredStays(key, entries[1..], v, x);
      }
    }
  }

  /** The merged entries are in the order their keys first came in. */
  lemma {:induction false} MergedKeys<K, V>(key: V -> K, s: seq<V>)
    ensures KeysOf(key, Merged(key, s)) == FirstOccurrences(KeysOf(key, s))
  {
    if s != [] {
      MergedKeys(key, s[..|s| - 1]);
      EnteredKeys(key, Merged(key, s[..|s| - 1]), s[|s| - 1]);
      assert KeysOf(key, s)[..|s| - 1] == KeysOf(key, s[..|s| - 1]);
    }
  }

  /** And they are the last ones of their keys. */
  lemma {:induction false} MergedAreLast<K, V>(key: V -> K, s: seq<V>, i: nat)
    requires i < |s| && forall j | i < j < |s| :: key(s[j]) != key(s[i])
    ensures s[i] in Merged(key, s)
    decreases |s|
  {
    var k := |s| - 1;
    if i < k {
      MergedAreLast(key, s[..k], i);
    }
    EnteredStays(key, Merged(key, s[..k]), s[k], s[i]);
  }

  lemma {:induction false} CardinalityOfDistinct<T>(s: seq<T>)
    requires Distinct(s)
    ensures |Elements(s)| == |s|
  {
    if s != [] {
      CardinalityOfDistinct(s[1..]);
      assert Elements(s) == {s[0]} + Elements(s[1..]);
      assert s[0] !in s[1..];
    }
  }

  lemma SubsetCardinality<T>(a: set<T>, b: set<T>)
    requires a <= b
    ensures |a| <= |b|
  {
    assert b == a + (b - a);
  }

  /** A walk longer than the set it stays in meets some element twice. */
  lemma Pigeonhole<T>(s: seq<T>, pool: set<T>) returns (i: nat, j: nat)
    requires |s| > |pool| && Elements(s) <= pool
    ensures i < j < |s| && s[i] == s[j]
  {
    if Distinct(s) {
      CardinalityOfDistinct(s);
      SubsetCardinality(Elements(s), pool);
      assert false;
    }
    i, j :| 0 <= i < j < |s| && s[i] == s[j];
  }
}
