/**
 Dictionary keys and their order: `DictionaryKey.compareTo` of the JVM binding
 (DictionaryKey.java) and `DictionaryKey.CompareTo` of the .NET binding.

 A key is a sequence of units of one domain.  Units are unsigned: bytes, Unicode scalars or
 64-bit tokens.  `CompareTo` scans both keys with one index, as the sources do; `Precedes` is
 the declarative order it is proved against.
 */
module Keys {
  import opened Interop

  function WireValue(d: UnitDomain): nat {
    match d
    case Byte => 1
    case UnicodeScalar => 2
    case U64 => 3
  }

  datatype Key = Key(domain: UnitDomain, units: seq<nat>)

  /** `Integer.compare` and its unsigned relatives, on values. */
  function Sign(a: int, b: int): int {
    if a < b then -1 else if a > b then 1 else 0
  }

  function CompareUnits(left: seq<nat>, right: seq<nat>): int {
    if left == [] || right == [] then Sign(|left|, |right|)
    else if left[0] != right[0] then Sign(left[0], right[0])
    else CompareUnits(left[1..], right[1..])
  }

  function Compare(a: Key, b: Key): int {
    if WireValue(a.domain) != WireValue(b.domain) then Sign(WireValue(a.domain), WireValue(b.domain))
    else CompareUnits(a.units, b.units)
  }

  lemma {:induction false} SkipCommon(left: seq<nat>, right: seq<nat>, i: nat)
    requires i <= |left| && i <= |right| && left[..i] == right[..i]
    ensures CompareUnits(left, right) == CompareUnits(left[i..], right[i..])
  {
    if i > 0 {
      assert left[0] == left[..i][0] && right[0] == right[..i][0];
      assert left[1..][..i - 1] == left[..i][1..] && right[1..][..i - 1] == right[..i][1..];
      SkipCommon(left[1..], right[1..], i - 1);
      assert left[1..][i - 1..] == left[i..] && right[1..][i - 1..] == right[i..];
    } else {
      assert left[0..] == left && right[0..] == right;
    }
  }

  /** The index loop the two bindings write once per unit type. */
  method CompareTo(a: Key, b: Key) returns (r: int)
    ensures r == Compare(a, b)
  {
    var domainOrder := Sign(WireValue(a.domain), WireValue(b.domain));
    if domainOrder != 0 {
      return domainOrder;
    }
    var left, right := a.units, b.units;
    var common := if |left| < |right| then |left| else |right|;
    var i := 0;
    while i < common
      invariant 0 <= i <= common && left[..i] == right[..i]
    {
      var compared := Sign(left[i], right[i]);
      SkipCommon(left, right, i);
      if compared != 0 {
        return compared;
      }
      i := i + 1;
    }
    SkipCommon(left, right, i);
    return Sign(|left|, |right|);
  }

  /** The order as documented: by domain, then lexicographic, a prefix before its extensions. */
  predicate Precedes(a: Key, b: Key) {
    || WireValue(a.domain) < WireValue(b.domain)
    || (a.domain == b.domain && UnitsPrecede(a.units, b.units))
  }

  predicate UnitsPrecede(a: seq<nat>, b: seq<nat>) {
    exists i | 0 <= i <= |a| :: FirstDifference(a, b, i)
  }

  /** `a` is smaller than `b` because of position `i`. */
  predicate FirstDifference(a: seq<nat>, b: seq<nat>, i: nat)
    requires i <= |a|
  {
    i < |b| && a[..i] == b[..i] && (i == |a| || a[i] < b[i])
  }

  lemma {:induction false} UnitsOrder(a: seq<nat>, b: seq<nat>)
    ensures CompareUnits(a, b) < 0 <==> UnitsPrecede(a, b)
    ensures CompareUnits(a, b) == 0 <==> a == b
    ensures CompareUnits(a, b) == -CompareUnits(b, a)
  {
    if a == [] || b == [] {
      assert a == [] && b != [] ==> FirstDifference(a, b, 0);
    } else if a[0] != b[0] {
      assert a[0] < b[0] ==> FirstDifference(a, b, 0);
      forall i | 0 < i <= |a| ensures !FirstDifference(a, b, i) {
        if i < |b| {
          assert a[..i][0] == a[0] && b[..i][0] == b[0];
        }
      }
    } else {
      UnitsOrder(a[1..], b[1..]);
      assert a == [a[0]] + a[1..] && b == [b[0]] + b[1..];
      if UnitsPrecede(a[1..], b[1..]) {
        var i :| 0 <= i <= |a[1..]| && FirstDifference(a[1..], b[1..], i);
        assert a[..i + 1] == [a[0]] + a[1..][..i] && b[..i + 1] == [b[0]] + b[1..][..i];
        assert FirstDifference(a, b, i + 1);
      }
      if UnitsPrecede(a, b) {
        var i :| 0 <= i <= |a| && FirstDifference(a, b, i);
        assert a[1..][..i - 1] == a[..i][1..] && b[1..][..i - 1] == b[..i][1..];
        assert FirstDifference(a[1..], b[1..], i - 1);
      }
    }
  }

  lemma {:induction false} UnitsTransitive(a: seq<nat>, b: seq<nat>, c: seq<nat>)
    requires CompareUnits(a, b) < 0 && CompareUnits(b, c) < 0
    ensures CompareUnits(a, c) < 0
  {
    if a != [] && b != [] && c != [] && a[0] == b[0] == c[0] {
      UnitsTransitive(a[1..], b[1..], c[1..]);
    }
  }

  /** `compareTo` decides the documented order, and is zero exactly on equal keys. */
  lemma CompareDecidesOrder(a: Key, b: Key)
    ensures Compare(a, b) < 0 <==> Precedes(a, b)
    ensures Compare(a, b) > 0 <==> Precedes(b, a)
    ensures Compare(a, b) == 0 <==> a == b
  {
    UnitsOrder(a.units, b.units);
    UnitsOrder(b.units, a.units);
  }

  /** `Precedes` is a strict total order. */
  lemma TotalOrder(a: Key, b: Key, c: Key)
    ensures !Precedes(a, a)
    ensures Precedes(a, b) || a == b || Precedes(b, a)
    ensures Precedes(a, b) ==> !Precedes(b, a)
    ensures Precedes(a, b) && Precedes(b, c) ==> Precedes(a, c)
  {
    CompareDecidesOrder(a, a);
    CompareDecidesOrder(a, b);
    CompareDecidesOrder(b, c);
    CompareDecidesOrder(a, c);
    if Precedes(a, b) && Precedes(b, c) && a.domain == b.domain == c.domain {
      UnitsTransitive(a.units, b.units, c.units);
    }
  }

  /** A key comes before everything that extends it. */
  lemma PrefixFirst(a: Key, more: seq<nat>)
    requires more != []
    ensures Compare(a, Key(a.domain, a.units + more)) < 0
  {
    var b := Key(a.domain, a.units + more);
    assert b.units[..|a.units|] == a.units[..|a.units|];
    assert FirstDifference(a.units, b.units, |a.units|);
    CompareDecidesOrder(a, b);
  }

  /** At the first difference the smaller unit decides, whatever follows and however long the keys are. */
  lemma FirstDifferenceDecides(d: UnitDomain, common: seq<nat>, x: nat, y: nat, a: seq<nat>, b: seq<nat>)
    requires x != y
    ensures Compare(Key(d, common + [x] + a), Key(d, common + [y] + b)) < 0 <==> x < y
  {
    var left, right := common + [x] + a, common + [y] + b;
    SkipCommon(left, right, |common|);
  }

  // ---------------------------------------------------------------- ascending sequences

  predicate Ascending(keys: seq<Key>) {
    forall i :: 0 < i < |keys| ==> Precedes(keys[i - 1], keys[i])
  }

  /** Neighbouring keys in order put every pair of keys in order. */
  lemma {:induction false} AscendingPairs(keys: seq<Key>, i: nat, j: nat)
    requires Ascending(keys) && i < j < |keys|
    ensures Precedes(keys[i], keys[j]) && keys[i] != keys[j]
    decreases j
  {
    if i + 1 < j {
      AscendingPairs(keys, i, j - 1);
    }
    assert Precedes(keys[j - 1], keys[j]);
    TotalOrder(keys[i], keys[j - 1], keys[j]);
    CompareDecidesOrder(keys[i], keys[j]);
    CompareDecidesOrder(keys[i], keys[i]);
  }
}
