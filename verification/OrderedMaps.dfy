/** The insertion-ordered Map of JavaScript, for text keys. */
module OrderedMaps {
  import opened Sequences

  function Without(s: seq<string>, key: string): seq<string>
  {
    if s == [] then [] else if s[0] == key then s[1..] else [s[0]] + Without(s[1..], key)
  }

  datatype OrderedMap<V> = OrderedMap(order: seq<string>, values: map<string, V>) {

    ghost predicate Valid() {
      Distinct(order) && forall k :: k in order <==> k in values
    }

    /** `delete`: a missing key is no change. */
    function Delete(key: string): OrderedMap<V> {
      OrderedMap(Without(order, key), values - {key})
    }

    /** `set` of a key that is not there: it goes last. */
    function Add(key: string, value: V): OrderedMap<V> {
      OrderedMap(order + [key], values[key := value])
    }
  }

  function Empty<V>(): OrderedMap<V> {
    OrderedMap([], map[])
  }

  lemma {:induction false} WithoutAbsent(s: seq<string>, key: string)
    requires key !in s
    ensures Without(s, key) == s
  {
    if s != [] {
      WithoutAbsent(s[1..], key);
    }
  }

  lemma {:induction false} WithoutAt(s: seq<string>, i: nat)
    requires Distinct(s) && i < |s|
    ensures Without(s, s[i]) == s[..i] + s[i + 1..]
  {
    if i > 0 {
      WithoutAt(s[1..], i - 1);
      assert s[1..][..i - 1] == s[1..i] && [s[0]] + s[1..i] == s[..i];
    }
  }

  lemma DroppedOne(s: seq<string>, i: nat)
    requires Distinct(s) && i < |s|
    ensures var r := s[..i] + s[i + 1..];
            && |r| == |s| - 1 && Distinct(r)
            && (forall k :: k in r <==> k in s && k != s[i])
  {
    assert s == s[..i] + [s[i]] + s[i + 1..];
    assert forall j | 0 <= j < |s| && j != i :: s[j] != s[i];
  }

  /** What is left after a deletion is what was there before, in the same order. */
  lemma WithoutKeepsTheRest(s: seq<string>, key: string)
    requires Distinct(s)
    ensures var r := Without(s, key);
            && |r| == (if key in s then |s| - 1 else |s|)
            && Distinct(r)
            && (forall k :: k in r <==> k in s && k != key)
  {
    if key in s {
      var i :| 0 <= i < |s| && s[i] == key;
      WithoutAt(s, i);
      hide Without;
      DroppedOne(s, i);
    } else {
      WithoutAbsent(s, key);
    }
  }

  lemma DeleteKeepsValid<V>(m: OrderedMap<V>, key: string)
    requires m.Valid()
    ensures m.Delete(key).Valid()
  {
    WithoutKeepsTheRest(m.order, key);
  }

  lemma AddKeepsValid<V>(m: OrderedMap<V>, key: string, value: V)
    requires m.Valid() && key !in m.values
    ensures m.Add(key, value).Valid()
  {
  }
}
