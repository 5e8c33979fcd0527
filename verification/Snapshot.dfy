/**
 Lookups and set relations of a materialised snapshot: `OrderedEntryMap.find` of the JVM
 binding (DictionarySnapshot.java), and `DictionarySnapshot.Find` and `SnapshotSet` of the .NET
 binding (DictionaryCollections.cs).

 The entries are an array in strictly ascending key order.  The binary search is proved against
 a linear scan and against the map the entries stand for; the set relations, which compare
 counts, are proved against mathematical sets.
 */
module Snapshot {
  import opened Interop
  import opened Keys
  import opened EntryBatch

  /** The first position of `key`, or -1: the linear search the binary search stands for. */
  function LinearFind(es: seq<Entry>, key: Key): int {
    if es == [] then -1
    else if es[0].key == key then 0
    else
      var rest := LinearFind(es[1..], key);
      if rest < 0 then -1 else rest + 1
  }

  lemma {:induction false} LinearFindMeaning(es: seq<Entry>, key: Key)
    ensures var i := LinearFind(es, key);
            if i < 0 then i == -1 && forall k :: 0 <= k < |es| ==> es[k].key != key
            else i < |es| && es[i].key == key && forall k :: 0 <= k < i ==> es[k].key != key
  {
    if es != [] && es[0].key != key {
      LinearFindMeaning(es[1..], key);
      var i := LinearFind(es[1..], key);
      forall k | 0 < k < |es| && (i < 0 || k < i + 1) ensures es[k].key != key {
        assert es[k] == es[1..][k - 1];
      }
    }
  }

  /** In ascending order the comparison with one entry decides about all on one side of it. */
  lemma SideOf(es: seq<Entry>, key: Key, middle: nat, k: nat)
    requires Ascending(KeysOf(es)) && middle < |es| && k < |es|
    ensures Compare(es[middle].key, key) < 0 && k <= middle ==> es[k].key != key
    ensures Compare(es[middle].key, key) > 0 && k >= middle ==> es[k].key != key
  {
    CompareDecidesOrder(es[middle].key, key);
    if k < middle {
      AscendingPairs(KeysOf(es), k, middle);
    } else if middle < k {
      AscendingPairs(KeysOf(es), middle, k);
    }
    TotalOrder(es[k].key, es[middle].key, key);
    TotalOrder(key, es[middle].key, es[k].key);
  }

  /** Binary search; `(low + high) >>> 1` of two 31-bit indices is their halved sum. */
  method Find(es: seq<Entry>, key: Key) returns (index: int)
    requires Ascending(KeysOf(es))
    ensures index == LinearFind(es, key)
  {
    var low, high := 0, |es| - 1;
    while low <= high
      invariant 0 <= low <= high + 1 <= |es|
      invariant forall k :: 0 <= k < |es| && (k < low || high < k) ==> es[k].key != key
    {
      var middle := (low + high) / 2;
      var comparison := CompareTo(es[middle].key, key);
      forall k | 0 <= k < |es| ensures
        && (comparison < 0 && k <= middle ==> es[k].key != key)
        && (comparison > 0 && k >= middle ==> es[k].key != key)
      {
        SideOf(es, key, middle, k);
      }
      if comparison < 0 {
        low := middle + 1;
      } else if comparison > 0 {
        high := middle - 1;
      } else {
        CompareDecidesOrder(es[middle].key, key);
        FoundAt(es, key, middle);
        return middle;
      }
    }
    LinearFindMeaning(es, key);
    return -1;
  }

  lemma FoundAt(es: seq<Entry>, key: Key, index: nat)
    requires Ascending(KeysOf(es)) && index < |es| && es[index].key == key
    ensures LinearFind(es, key) == index
  {
    LinearFindMeaning(es, key);
    var i := LinearFind(es, key);
    if i < index {
      AscendingPairs(KeysOf(es), i, index);
    }
  }

  // ---------------------------------------------------------------- the map

  lemma FrontAscending(es: seq<Entry>)
    requires es != [] && Ascending(KeysOf(es))
    ensures Ascending(KeysOf(es[..|es| - 1]))
  {
    var keys := KeysOf(es[..|es| - 1]);
    forall i | 0 < i < |keys| ensures Precedes(keys[i - 1], keys[i]) {
      assert Precedes(KeysOf(es)[i - 1], KeysOf(es)[i]);
    }
  }

  /** The map the entries stand for. */
  function AsMap(es: seq<Entry>): map<Key, Option<nat>> {
    if es == [] then map[] else AsMap(es[..|es| - 1])[es[|es| - 1].key := es[|es| - 1].value]
  }

  lemma {:induction false} AsMapMeaning(es: seq<Entry>, key: Key)
    ensures key in AsMap(es) <==> exists i :: 0 <= i < |es| && es[i].key == key
    ensures Ascending(KeysOf(es)) ==> forall i :: 0 <= i < |es| && es[i].key == key ==> AsMap(es)[key] == es[i].value
  {
    if es != [] {
      var n := |es| - 1;
      var front := es[..n];
      AsMapMeaning(front, key);
      if key in AsMap(front) {
        var i :| 0 <= i < |front| && front[i].key == key;
        assert es[i].key == key;
      }
      if Ascending(KeysOf(es)) {
        FrontAscending(es);
        forall i | 0 <= i < n ensures es[i].key != es[n].key && front[i] == es[i] {
          AscendingPairs(KeysOf(es), i, n);
        }
      }
    }
  }

  /** `ContainsKey` and `TryGetValue` through the search are those of the map. */
  lemma LookupIsMapLookup(es: seq<Entry>, key: Key)
    requires Ascending(KeysOf(es))
    ensures LinearFind(es, key) < |es| && (LinearFind(es, key) >= 0 <==> key in AsMap(es))
    ensures LinearFind(es, key) >= 0 ==> es[LinearFind(es, key)].value == AsMap(es)[key]
  {
    LinearFindMeaning(es, key);
    AsMapMeaning(es, key);
  }

  // ---------------------------------------------------------------- the set of keys

  function KeySet(es: seq<Entry>): set<Key> {
    set i | 0 <= i < |es| :: es[i].key
  }

  lemma {:induction false} KeySetCount(es: seq<Entry>)
    requires Ascending(KeysOf(es))
    ensures |KeySet(es)| == |es|
  {
    if es != [] {
      var n := |es| - 1;
      var front := es[..n];
      FrontAscending(es);
      KeySetCount(front);
      forall i | 0 <= i < n ensures es[i].key != es[n].key {
        AscendingPairs(KeysOf(es), i, n);
      }
      assert forall i :: 0 <= i < n ==> front[i] == es[i];
      assert KeySet(es) == KeySet(front) + {es[n].key};
      assert es[n].key !in KeySet(front);
    }
  }

  /** `Contains`. */
  method Contains(es: seq<Entry>, key: Key) returns (r: bool)
    requires Ascending(KeysOf(es))
    ensures r == (key in KeySet(es))
  {
    var index := Find(es, key);
    LinearFindMeaning(es, key);
    return index >= 0;
  }

  /** `candidates.All(Contains)`, in any enumeration order of the candidates. */
  method AllContained(es: seq<Entry>, candidates: set<Key>) returns (r: bool)
    requires Ascending(KeysOf(es))
    ensures r == (candidates <= KeySet(es))
  {
    var left := candidates;
    while left != {}
      invariant left <= candidates && candidates - left <= KeySet(es)
    {
      var key :| key in left;
      var found := Contains(es, key);
      if !found {
        return false;
      }
      left := left - {key};
    }
    return true;
  }

  /** `this.All(candidates.Contains)`. */
  method AllCandidates(es: seq<Entry>, candidates: set<Key>) returns (r: bool)
    ensures r == (KeySet(es) <= candidates)
  {
    var i := 0;
    while i < |es|
      invariant 0 <= i <= |es|
      invariant forall k :: 0 <= k < i ==> es[k].key in candidates
    {
      if es[i].key !in candidates {
        assert es[i].key in KeySet(es);
        return false;
      }
      i := i + 1;
    }
    return true;
  }

  /** The arguments are sequences, which may repeat keys; a `HashSet` drops the repetitions. */
  function HashSetOf(other: seq<Key>): set<Key> {
    set key | key in other
  }

  method SetEquals(es: seq<Entry>, other: seq<Key>) returns (r: bool)
    requires Ascending(KeysOf(es))
    ensures r == (KeySet(es) == HashSetOf(other))
  {
    var candidates := HashSetOf(other);
    KeySetCount(es);
    if |es| != |candidates| {
      return false;
    }
    r := AllContained(es, candidates);
    if r {
      SubsetOfSameSize(candidates, KeySet(es));
    }
  }

  method IsProperSubsetOf(es: seq<Entry>, other: seq<Key>) returns (r: bool)
    requires Ascending(KeysOf(es))
    ensures r == (KeySet(es) < HashSetOf(other))
  {
    var candidates := HashSetOf(other);
    KeySetCount(es);
    SubsetNotLarger(candidates, KeySet(es));
    if |es| >= |candidates| {
      return false;
    }
    r := AllCandidates(es, candidates);
  }

  method IsProperSupersetOf(es: seq<Entry>, other: seq<Key>) returns (r: bool)
    requires Ascending(KeysOf(es))
    ensures r == (KeySet(es) > HashSetOf(other))
  {
    var candidates := HashSetOf(other);
    KeySetCount(es);
    SubsetNotLarger(KeySet(es), candidates);
    if |es| <= |candidates| {
      return false;
    }
    r := AllContained(es, candidates);
  }

  method IsSubsetOf(es: seq<Entry>, other: seq<Key>) returns (r: bool)
    ensures r == (KeySet(es) <= HashSetOf(other))
  {
    r := AllCandidates(es, HashSetOf(other));
  }

  /** `other.All(Contains)`, without a `HashSet`. */
  method IsSupersetOf(es: seq<Entry>, other: seq<Key>) returns (r: bool)
    requires Ascending(KeysOf(es))
    ensures r == (KeySet(es) >= HashSetOf(other))
  {
    var i := 0;
    while i < |other|
      invariant 0 <= i <= |other|
      invariant forall k :: 0 <= k < i ==> other[k] in KeySet(es)
    {
      var found := Contains(es, other[i]);
      if !found {
        assert other[i] in HashSetOf(other);
        return false;
      }
      i := i + 1;
    }
    return true;
  }

  /** `other.Any(Contains)`. */
  method Overlaps(es: seq<Entry>, other: seq<Key>) returns (r: bool)
    requires Ascending(KeysOf(es))
    ensures r == (KeySet(es) * HashSetOf(other) != {})
  {
    var i := 0;
    while i < |other|
      invariant 0 <= i <= |other|
      invariant forall k :: 0 <= k < i ==> other[k] !in KeySet(es)
    {
      var found := Contains(es, other[i]);
      if found {
        assert other[i] in KeySet(es) * HashSetOf(other);
        return true;
      }
      i := i + 1;
    }
    return false;
  }

  lemma {:induction false} SubsetCount<T>(a: set<T>, b: set<T>)
    requires a <= b
    ensures |a| <= |b| && (|a| == |b| ==> a == b)
  {
    if a != {} {
      var x :| x in a;
      SubsetCount(a - {x}, b - {x});
      assert a == (a - {x}) + {x} && b == (b - {x}) + {x};
    }
  }

  lemma SubsetOfSameSize<T>(a: set<T>, b: set<T>)
    requires a <= b && |a| == |b|
    ensures a == b
  {
    SubsetCount(a, b);
  }

  /** The larger of two sets is no subset, and the smaller or equal one no proper superset. */
  lemma SubsetNotLarger<T>(a: set<T>, b: set<T>)
    ensures |a| > |b| ==> !(a <= b)
    ensures |a| <= |b| ==> !(b < a)
  {
    if a <= b {
      SubsetCount(a, b);
    }
    if b <= a {
      SubsetCount(b, a);
    }
  }
}
