/** Version numbers of migrations: safe integers, each used once. */
module Versions {
  import opened Wrappers
  import opened Sequences

  const MAX_SAFE_INTEGER: int := 9_007_199_254_740_991

  predicate Safe(version: int) {
    -MAX_SAFE_INTEGER <= version <= MAX_SAFE_INTEGER
  }

  /** The integers a double holds together with their neighbours: those of at most 53 bits. */
  lemma SafeIs(version: int)
    ensures Safe(version) <==> -0x20_0000_0000_0000 < version < 0x20_0000_0000_0000
  {
  }

  /** The first position whose version is no safe integer or was seen before. */
  function FirstBad(versions: seq<int>): (r: Option<nat>)
    ensures r.Some? ==> r.value < |versions|
  {
    if versions == [] then None
    else
      var k := |versions| - 1;
      var earlier := FirstBad(versions[..k]);
      if earlier.Some? then earlier
      else if !Safe(versions[k]) || versions[k] in versions[..k] then Some(k)
      else None
  }

  lemma {:induction false} NoneIsBadWhen(versions: seq<int>)
    ensures FirstBad(versions).None? <==> Distinct(versions) && forall v | v in versions :: Safe(v)
  {
    if versions != [] {
      var k := |versions| - 1;
      NoneIsBadWhen(versions[..k]);
      assert versions == versions[..k] + [versions[k]];
      if versions[k] in versions[..k] {
        var i :| 0 <= i < k && versions[i] == versions[k];
      }
      if FirstBad(versions[..k]).Some? && Distinct(versions) {
        assert Distinct(versions[..k]);
      }
    }
  }

  /** What is wrong with the first bad version, and that nothing was wrong before it. */
  lemma {:induction false} FirstBadIs(versions: seq<int>)
    ensures match FirstBad(versions)
            case None => true
            case Some(i) =>
              && Distinct(versions[..i]) && (forall j | 0 <= j < i :: Safe(versions[j]))
              && (Safe(versions[i]) ==> exists j :: 0 <= j < i && versions[j] == versions[i])
  {
    if versions != [] {
      var k := |versions| - 1;
      FirstBadIs(versions[..k]);
      NoneIsBadWhen(versions[..k]);
      if FirstBad(versions[..k]).Some? {
        assert versions[..k][..FirstBad(versions).value] == versions[..FirstBad(versions).value];
      }
    }
  }

  lemma {:induction false} BadStaysFirst(versions: seq<int>, k: nat)
    requires k <= |versions| && FirstBad(versions[..k]).Some?
    ensures FirstBad(versions) == FirstBad(versions[..k])
    decreases |versions|
  {
    if k == |versions| {
      assert versions[..k] == versions;
    } else {
      var n := |versions| - 1;
      assert versions[..n][..k] == versions[..k];
      BadStaysFirst(versions[..n], k);
    }
  }

  /** The loop both runners start with, over the versions in the order they are given. */
  method CheckVersions(versions: seq<int>) returns (bad: Option<nat>)
    ensures bad == FirstBad(versions)
  {
    var seen: set<int> := {};
    var i := 0;
    while i < |versions|
      invariant i <= |versions| && FirstBad(versions[..i]) == None
      invariant seen == Elements(versions[..i])
    {
      assert versions[..i + 1][..i] == versions[..i];
      if !Safe(versions[i]) || versions[i] in seen {
        BadStaysFirst(versions, i + 1);
        return Some(i);
      }
      ElementsTake(versions, i);
      seen := seen + {versions[i]};
      i := i + 1;
    }
    assert versions[..i] == versions;
    return None;
  }
}
