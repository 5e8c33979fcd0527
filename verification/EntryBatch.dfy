/**
 Validation and decoding of one leased batch of dictionary entries: `copyBatch`/`decodeKey` of
 the JVM binding (DictionaryEntryIterator.java) and `CopyBatch`/`DecodeKey` of the .NET
 binding (DictionaryCollections.cs).

 A batch is a descriptor array plus a unit arena and a value arena.  `Descriptors`, `Units`
 and `Values` say how a list of entries is packed; the main results are that a batch is
 accepted exactly if it is that packing of some admissible list, and that decoding it returns
 the list.
 */
module EntryBatch {
  import opened Interop
  import opened Keys

  datatype Runtime = Jvm | DotNet

  datatype ValueDomain = Unit | OptionalU64

  datatype Entry = Entry(key: Key, value: Option<nat>)

  /** What the cursor was opened with: metadata and the caller's limits. */
  datatype Config = Config(runtime: Runtime, unitDomain: UnitDomain, valueDomain: ValueDomain,
                           exactLength: Option<nat>, maxEntries: nat, maxUnits: nat, maxValues: nat)

  datatype Descriptor = Descriptor(unitOffset: nat, unitLen: nat, valueOffset: nat, valueLen: nat, reserved: nat)

  /** The arenas stand for the memory at the addresses, with the counts the batch declares. */
  datatype Batch = Batch(entriesAddress: nat, descriptors: seq<Descriptor>, unitsAddress: nat, units: seq<nat>,
                         valuesAddress: nat, values: seq<nat>, generation: nat, reserved: nat)

  const EMPTY := Batch(0, [], 0, [], 0, [], 0, 0)

  /** Lengths are signed 64-bit on the JVM and `nuint` in .NET. */
  function WordMax(r: Runtime): nat {
    if r.Jvm? then MAX_INT64 else MAX_UINT64
  }

  function UnitSize(d: UnitDomain): nat {
    match d
    case Byte => 1
    case UnicodeScalar => 4
    case U64 => 8
  }

  // ---------------------------------------------------------------- packing

  function KeysOf(es: seq<Entry>): seq<Key> {
    seq(|es|, i requires 0 <= i < |es| => es[i].key)
  }

  function ValueUnits(e: Entry): seq<nat> {
    if e.value.Some? then [e.value.value] else []
  }

  function Units(es: seq<Entry>): seq<nat> {
    if es == [] then [] else es[0].key.units + Units(es[1..])
  }

  function Values(es: seq<Entry>): seq<nat> {
    if es == [] then [] else ValueUnits(es[0]) + Values(es[1..])
  }

  function DescriptorOf(e: Entry, u: nat, v: nat): Descriptor {
    Descriptor(u, |e.key.units|, v, |ValueUnits(e)|, 0)
  }

  /** Descriptors of entries packed from unit offset `u` and value offset `v` on. */
  function Descriptors(es: seq<Entry>, u: nat, v: nat): seq<Descriptor> {
    if es == [] then []
    else
      var e := es[0];
      [DescriptorOf(e, u, v)]
      + Descriptors(es[1..], u + |e.key.units|, v + |ValueUnits(e)|)
  }

  predicate Packs(b: Batch, es: seq<Entry>) {
    b.descriptors == Descriptors(es, 0, 0) && b.units == Units(es) && b.values == Values(es)
  }

  // ---------------------------------------------------------------- what may be packed

  /** A key is materialised in an array, whose length is a signed 32-bit integer. */
  predicate KeyUnitsOk(d: UnitDomain, units: seq<nat>) {
    |units| <= MAX_INT32 && (d.UnicodeScalar? ==> forall i :: 0 <= i < |units| ==> IsScalar(units[i]))
  }

  predicate EntryOk(c: Config, e: Entry) {
    e.key.domain == c.unitDomain && KeyUnitsOk(c.unitDomain, e.key.units) && (c.valueDomain.Unit? ==> e.value.None?)
  }

  /** `es` may follow the entries that ended with the key `previous`. */
  predicate Continues(previous: Option<Key>, es: seq<Entry>) {
    && (previous.Some? && es != [] ==> Precedes(previous.value, es[0].key))
    && Ascending(KeysOf(es))
  }

  /** Counts within the caller's limits; the JVM also computes the arena sizes in bytes. */
  predicate CountsOk(c: Config, entries: nat, units: nat, values: nat) {
    && 0 < entries <= c.maxEntries && units <= c.maxUnits && values <= c.maxValues
    && entries <= WordMax(c.runtime) && units <= WordMax(c.runtime) && values <= WordMax(c.runtime)
    && (c.runtime.Jvm? ==> entries * 40 <= MAX_INT64 && units * UnitSize(c.unitDomain) <= MAX_INT64
                           && values * 8 <= MAX_INT64)
  }

  predicate TotalOk(c: Config, total: nat) {
    total <= WordMax(c.runtime) && (c.exactLength.Some? ==> total <= c.exactLength.value)
  }

  predicate Admissible(c: Config, previous: Option<Key>, delivered: nat, es: seq<Entry>) {
    && CountsOk(c, |es|, |Units(es)|, |Values(es)|)
    && (forall i :: 0 <= i < |es| ==> EntryOk(c, es[i]))
    && Continues(previous, es)
    && TotalOk(c, delivered + |es|)
  }

  // ---------------------------------------------------------------- the validation

  predicate PointerOk(address: nat, count: nat, alignment: nat)
    requires alignment > 0
  {
    (address == 0 <==> count == 0) && (count > 0 ==> address % alignment == 0)
  }

  /** Everything about the pointers and words around the arenas. */
  predicate FrameOk(c: Config, b: Batch) {
    && b.generation != 0 && b.reserved == 0
    && PointerOk(b.entriesAddress, |b.descriptors|, 8)
    && PointerOk(b.unitsAddress, |b.units|, UnitSize(c.unitDomain))
    && PointerOk(b.valuesAddress, |b.values|, 8)
  }

  /** The checks before the descriptor loop. */
  predicate HeaderOk(c: Config, b: Batch) {
    CountsOk(c, |b.descriptors|, |b.units|, |b.values|) && FrameOk(c, b)
  }

  /** Both bindings check one descriptor against the packing position without overflowing. */
  predicate DescriptorOk(c: Config, d: Descriptor, unitCount: nat, valueCount: nat, u: nat, v: nat) {
    && (match c.runtime
        case Jvm =>
          && d.unitOffset <= MAX_INT64 && d.unitLen <= MAX_INT64
          && d.valueOffset <= MAX_INT64 && d.valueLen <= MAX_INT64
          && d.reserved == 0 && d.unitOffset == u && d.valueOffset == v
          && d.unitOffset + d.unitLen <= MAX_INT64 && d.unitOffset + d.unitLen <= unitCount
          && d.valueOffset + d.valueLen <= MAX_INT64 && d.valueOffset + d.valueLen <= valueCount
        case DotNet =>
          && d.reserved == 0 && d.unitOffset == u && d.valueOffset == v
          && d.unitOffset <= unitCount && d.valueOffset <= valueCount
          && d.unitLen <= unitCount - d.unitOffset && d.valueLen <= valueCount - d.valueOffset)
    && (c.valueDomain.Unit? ==> d.valueLen == 0)
    && (c.valueDomain.OptionalU64? ==> d.valueLen <= 1)
  }

  /** The entries decoded before validation stopped, and whether it went through. */
  datatype Scan = Scan(entries: seq<Entry>, ok: bool)

  /** One turn of the descriptor loop at packing position `(u, v)`. */
  function DecodeOne(c: Config, d: Descriptor, units: seq<nat>, values: seq<nat>,
                     u: nat, v: nat, previous: Option<Key>): Option<Entry>
  {
    if !DescriptorOk(c, d, |units|, |values|, u, v) || !KeyUnitsOk(c.unitDomain, units[u..u + d.unitLen]) then None
    else
      var key := Key(c.unitDomain, units[u..u + d.unitLen]);
      if previous.Some? && Compare(previous.value, key) >= 0 then None
      else Some(Entry(key, if d.valueLen == 0 then None else Some(values[v])))
  }

  /** The descriptor loop, from packing position `(u, v)` on. */
  function ScanFrom(c: Config, ds: seq<Descriptor>, units: seq<nat>, values: seq<nat>,
                    u: nat, v: nat, previous: Option<Key>): Scan
    decreases |ds|
  {
    if ds == [] then Scan([], u == |units| && v == |values|)
    else
      match DecodeOne(c, ds[0], units, values, u, v, previous)
      case None => Scan([], false)
      case Some(e) =>
        var rest := ScanFrom(c, ds[1..], units, values, u + ds[0].unitLen, v + ds[0].valueLen, Some(e.key));
        Scan([e] + rest.entries, rest.ok)
  }

  /** The key the next entry has to exceed. */
  function LastKey(previous: Option<Key>, es: seq<Entry>): Option<Key> {
    if es == [] then previous else Some(es[|es| - 1].key)
  }

  /** All descriptors were accepted and consume both arenas. */
  function ScanBatch(c: Config, b: Batch, previous: Option<Key>): Scan {
    if !HeaderOk(c, b) then Scan([], false) else ScanFrom(c, b.descriptors, b.units, b.values, 0, 0, previous)
  }

  /** The whole of `copyBatch`, given the number of entries delivered before. */
  function CopyBatch(c: Config, b: Batch, previous: Option<Key>, delivered: nat): Scan {
    var s := ScanBatch(c, b, previous);
    Scan(s.entries, s.ok && TotalOk(c, delivered + |b.descriptors|))
  }

  // ---------------------------------------------------------------- the loops of the sources

  /** The unit loop of `decodeKey`. */
  method DecodeKey(c: Config, units: seq<nat>, offset: nat, length: nat) returns (key: Option<Key>)
    requires offset + length <= |units|
    ensures key == if KeyUnitsOk(c.unitDomain, units[offset..offset + length])
                   then Some(Key(c.unitDomain, units[offset..offset + length])) else None
  {
    var slice := units[offset..offset + length];
    if length > MAX_INT32 {
      return None;
    }
    if c.unitDomain.UnicodeScalar? {
      var i := 0;
      while i < length
        invariant 0 <= i <= length
        invariant forall k :: 0 <= k < i ==> IsScalar(slice[k])
      {
        if !IsScalar(units[offset + i]) {
          assert !IsScalar(slice[i]);
          return None;
        }
        i := i + 1;
      }
    }
    return Some(Key(c.unitDomain, slice));
  }

  /** One turn of the descriptor loop, with the key comparison spelled out. */
  method CopyOne(c: Config, b: Batch, d: Descriptor, u: nat, v: nat, previous: Option<Key>) returns (e: Option<Entry>)
    ensures e == DecodeOne(c, d, b.units, b.values, u, v, previous)
  {
    if !DescriptorOk(c, d, |b.units|, |b.values|, u, v) {
      return None;
    }
    var key := DecodeKey(c, b.units, u, d.unitLen);
    if key.None? {
      return None;
    }
    if previous.Some? {
      var compared := CompareTo(previous.value, key.value);
      if compared >= 0 {
        return None;
      }
    }
    return Some(Entry(key.value, if d.valueLen == 0 then None else Some(b.values[v])));
  }

  /** One turn of the loop, seen from the entry it decodes. */
  lemma ScanCons(c: Config, ds: seq<Descriptor>, units: seq<nat>, values: seq<nat>,
                 u: nat, v: nat, previous: Option<Key>, e: Entry)
    requires ds != [] && DecodeOne(c, ds[0], units, values, u, v, previous) == Some(e)
    ensures var rest := ScanFrom(c, ds[1..], units, values, u + ds[0].unitLen, v + ds[0].valueLen, Some(e.key));
            ScanFrom(c, ds, units, values, u, v, previous) == Scan([e] + rest.entries, rest.ok)
  {
  }

  lemma ScanNil(c: Config, ds: seq<Descriptor>, units: seq<nat>, values: seq<nat>,
                u: nat, v: nat, previous: Option<Key>)
    requires ds != [] && DecodeOne(c, ds[0], units, values, u, v, previous).None?
    ensures ScanFrom(c, ds, units, values, u, v, previous) == Scan([], false)
  {
  }

  /** Decoding entry number `room` runs out of memory, if the loop gets that far. */
  predicate OutOfMemory(room: Option<nat>, count: nat, scan: Scan) {
    room.Some? && room.value < count && room.value <= |scan.entries|
  }

  /** What the loop has queued when it stops. */
  predicate Stopped(scan: Scan, queued: seq<Entry>, struck: bool, ok: bool) {
    if struck then !ok && queued <= scan.entries else Scan(queued, ok) == scan
  }

  /** What the method promises when the loop stops. */
  ghost predicate LoopResult(all: Scan, room: Option<nat>, count: nat, queued: seq<Entry>, struck: bool, ok: bool) {
    && struck == OutOfMemory(room, count, all) && Stopped(all, queued, struck, ok)
    && (struck ==> |queued| == room.value)
  }

  /** The whole scan is what is queued and what is still to come. */
  ghost predicate Split(all: Scan, room: Option<nat>, queued: seq<Entry>, todo: Scan) {
    all.entries == queued + todo.entries && all.ok == todo.ok && (room.Some? ==> room.value >= |queued|)
  }

  lemma SplitOne(all: Scan, room: Option<nat>, queued: seq<Entry>, e: Entry, rest: Scan)
    requires Split(all, room, queued, Scan([e] + rest.entries, rest.ok)) && room != Some(|queued|)
    ensures Split(all, room, queued + [e], rest)
  {
    assert queued + ([e] + rest.entries) == (queued + [e]) + rest.entries;
  }

  /** The loop stops early because memory runs out or because the next descriptor is bad. */
  lemma StopsEarly(all: Scan, room: Option<nat>, count: nat, queued: seq<Entry>, todo: Scan, struck: bool)
    requires Split(all, room, queued, todo) && |queued| < count
    requires struck <==> room == Some(|queued|)
    requires !struck ==> todo == Scan([], false)
    ensures LoopResult(all, room, count, queued, struck, false)
  {
    assert queued <= all.entries;
    assert queued + [] == queued;
  }

  lemma StopsAtEnd(all: Scan, room: Option<nat>, queued: seq<Entry>, ok: bool)
    requires Split(all, room, queued, Scan([], ok))
    ensures LoopResult(all, room, |queued|, queued, false, ok)
  {
    assert queued + [] == queued;
  }

  /** The scan from descriptor `index` on. */
  ghost function Rest(c: Config, b: Batch, index: nat, u: nat, v: nat, last: Option<Key>): Scan
    requires index <= |b.descriptors|
  {
    ScanFrom(c, b.descriptors[index..], b.units, b.values, u, v, last)
  }

  /** One turn of the descriptor loop, from descriptor `index` on. */
  method CopyTurn(c: Config, b: Batch, index: nat, u: nat, v: nat, last: Option<Key>, ghost todo: Scan)
    returns (e: Option<Entry>, ghost rest: Scan)
    requires index < |b.descriptors|
    requires todo == Rest(c, b, index, u, v, last)
    ensures e.None? ==> todo == Scan([], false)
    ensures e.Some? ==> todo == Scan([e.value] + rest.entries, rest.ok)
    ensures var d := b.descriptors[index];
            e.Some? ==> rest == Rest(c, b, index + 1, u + d.unitLen, v + d.valueLen, Some(e.value.key))
  {
    var d := b.descriptors[index];
    ghost var ds := b.descriptors[index..];
    assert ds[0] == d && ds[1..] == b.descriptors[index + 1..];
    e := CopyOne(c, b, d, u, v, last);
    rest := Scan([], false);
    if e.None? {
      ScanNil(c, ds, b.units, b.values, u, v, last);
    } else {
      ScanCons(c, ds, b.units, b.values, u, v, last, e.value);
      rest := ScanFrom(c, ds[1..], b.units, b.values, u + d.unitLen, v + d.valueLen, Some(e.value.key));
    }
  }

  /** A turn as the loop sees it: it goes on with one more entry, or the loop stops. */
  method QueueOne(c: Config, b: Batch, index: nat, u: nat, v: nat, last: Option<Key>, room: Option<nat>,
                  ghost all: Scan, ghost queued: seq<Entry>, ghost todo: Scan)
    returns (e: Option<Entry>, struck: bool, ghost rest: Scan)
    requires index < |b.descriptors| && |queued| == index && Split(all, room, queued, todo)
    requires todo == Rest(c, b, index, u, v, last)
    ensures e.None? ==> LoopResult(all, room, |b.descriptors|, queued, struck, false)
    ensures var d := b.descriptors[index];
            e.Some? ==>
              && Split(all, room, queued + [e.value], rest)
              && rest == Rest(c, b, index + 1, u + d.unitLen, v + d.valueLen, Some(e.value.key))
  {
    e, rest, struck := None, todo, room == Some(index);
    if !struck {
      e, rest := CopyTurn(c, b, index, u, v, last, todo);
    }
    if e.None? {
      StopsEarly(all, room, |b.descriptors|, queued, todo, struck);
    } else {
      SplitOne(all, room, queued, e.value, rest);
    }
  }

  /** The arenas decide when all descriptors were decoded. */
  lemma ScanEnds(c: Config, b: Batch, u: nat, v: nat, last: Option<Key>, room: Option<nat>,
                 all: Scan, queued: seq<Entry>, todo: Scan)
    requires Split(all, room, queued, todo) && |queued| == |b.descriptors|
    requires todo == Rest(c, b, |queued|, u, v, last)
    ensures LoopResult(all, room, |b.descriptors|, queued, false, u == |b.units| && v == |b.values|)
  {
    assert b.descriptors[|queued|..] == [];
    StopsAtEnd(all, room, queued, u == |b.units| && v == |b.values|);
  }

  /**
   The descriptor loop: entries are queued one by one, before the rest was validated.  `room`
   says how many keys can be allocated, `None` that there is enough memory.
   */
  method CopyEntries(c: Config, b: Batch, previous: Option<Key>, room: Option<nat>)
    returns (queued: seq<Entry>, last: Option<Key>, ok: bool, struck: bool)
    ensures LoopResult(ScanFrom(c, b.descriptors, b.units, b.values, 0, 0, previous), room, |b.descriptors|,
                       queued, struck, ok)
    ensures last == LastKey(previous, queued)
  {
    ghost var all := ScanFrom(c, b.descriptors, b.units, b.values, 0, 0, previous);
    ghost var todo := all;
    var nextUnit: nat, nextValue: nat, index: nat := 0, 0, 0;
    queued, last := [], previous;
    assert b.descriptors[index..] == b.descriptors && Split(all, room, queued, todo);
    while index < |b.descriptors|
      invariant index <= |b.descriptors| && |queued| == index
      invariant todo == Rest(c, b, index, nextUnit, nextValue, last)
      invariant Split(all, room, queued, todo) && last == LastKey(previous, queued)
    {
      var e;
      e, struck, todo := QueueOne(c, b, index, nextUnit, nextValue, last, room, all, queued, todo);
      if e.None? {
        return queued, last, false, struck;
      }
      var d := b.descriptors[index];
      queued, last := queued + [e.value], Some(e.value.key);
      nextUnit, nextValue, index := nextUnit + d.unitLen, nextValue + d.valueLen, index + 1;
    }
    ScanEnds(c, b, nextUnit, nextValue, last, room, all, queued, todo);
    ok, struck := nextUnit == |b.units| && nextValue == |b.values|, false;
  }

  // ---------------------------------------------------------------- accepting means packing

  lemma TailKeys(es: seq<Entry>)
    requires es != []
    ensures Ascending(KeysOf(es)) <==> Continues(Some(es[0].key), es[1..])
  {
    var keys := KeysOf(es);
    assert keys[1..] == KeysOf(es[1..]);
    assert forall i :: 0 < i < |keys| - 1 ==> keys[1..][i - 1] == keys[i] && keys[1..][i] == keys[i + 1];
    if Continues(Some(es[0].key), es[1..]) {
      forall i | 0 < i < |keys| ensures Precedes(keys[i - 1], keys[i]) {
        assert i > 1 ==> keys[1..][i - 2] == keys[i - 1] && keys[1..][i - 1] == keys[i];
        assert i > 1 ==> Precedes(keys[1..][i - 2], keys[1..][i - 1]);
      }
    }
    if Ascending(keys) {
      forall i | 0 < i < |keys[1..]| ensures Precedes(keys[1..][i - 1], keys[1..][i]) {
        assert Precedes(keys[i], keys[i + 1]);
      }
      assert es[1..] != [] ==> Precedes(keys[0], keys[1]);
    }
  }

  lemma DescriptorFits(c: Config, d: Descriptor, unitCount: nat, valueCount: nat, u: nat, v: nat)
    requires unitCount <= WordMax(c.runtime) && valueCount <= WordMax(c.runtime)
    ensures DescriptorOk(c, d, unitCount, valueCount, u, v) <==>
            && d == Descriptor(u, d.unitLen, v, d.valueLen, 0)
            && u + d.unitLen <= unitCount && v + d.valueLen <= valueCount
            && d.valueLen <= (if c.valueDomain.Unit? then 0 else 1)
  {
  }

  predicate MayFollow(previous: Option<Key>, key: Key) {
    previous.Some? ==> Precedes(previous.value, key)
  }

  /** The loop decodes `e` exactly if `e` is admissible and packed at this position. */
  lemma DecodeOneIff(c: Config, d: Descriptor, units: seq<nat>, values: seq<nat>,
                     u: nat, v: nat, previous: Option<Key>, e: Entry)
    requires |units| <= WordMax(c.runtime) && |values| <= WordMax(c.runtime)
    requires u <= |units| && v <= |values|
    ensures DecodeOne(c, d, units, values, u, v, previous) == Some(e) <==>
            && d == DescriptorOf(e, u, v) && e.key.units <= units[u..] && ValueUnits(e) <= values[v..]
            && EntryOk(c, e) && MayFollow(previous, e.key)
  {
    DescriptorFits(c, d, |units|, |values|, u, v);
    if previous.Some? {
      CompareDecidesOrder(previous.value, e.key);
    }
    if u + d.unitLen <= |units| && |e.key.units| == d.unitLen {
      assert units[u..][..d.unitLen] == units[u..u + d.unitLen];
      assert e.key.units <= units[u..] <==> e.key.units == units[u..][..d.unitLen];
    }
    if e.value.Some? {
      assert ValueUnits(e) <= values[v..] <==> v < |values| && values[v] == e.value.value;
    }
  }

  lemma SplitArena(arena: seq<nat>, position: nat, part: seq<nat>, rest: seq<nat>)
    requires position <= |arena| && part <= arena[position..]
    ensures position + |part| <= |arena|
    ensures arena[position..] == part + rest <==> arena[position + |part|..] == rest
  {
    assert arena[position..] == part + arena[position + |part|..];
  }

  /** Packing one more entry in front. */
  lemma PackFront(e: Entry, rest: seq<Entry>, ds: seq<Descriptor>, units: seq<nat>, values: seq<nat>, u: nat, v: nat)
    requires u <= |units| && e.key.units <= units[u..] && units[u + |e.key.units|..] == Units(rest)
    requires v <= |values| && ValueUnits(e) <= values[v..] && values[v + |ValueUnits(e)|..] == Values(rest)
    requires ds == Descriptors(rest, u + |e.key.units|, v + |ValueUnits(e)|)
    ensures [DescriptorOf(e, u, v)] + ds == Descriptors([e] + rest, u, v)
    ensures units[u..] == Units([e] + rest) && values[v..] == Values([e] + rest)
  {
    SplitArena(units, u, e.key.units, Units(rest));
    SplitArena(values, v, ValueUnits(e), Values(rest));
    assert ([e] + rest)[1..] == rest;
  }

  /** The first entry of a packing, and the packing of the rest. */
  lemma UnpackFront(es: seq<Entry>, units: seq<nat>, values: seq<nat>, u: nat, v: nat)
    requires es != [] && u <= |units| && units[u..] == Units(es) && v <= |values| && values[v..] == Values(es)
    ensures var u', v' := u + |es[0].key.units|, v + |ValueUnits(es[0])|;
            && es[0].key.units <= units[u..] && ValueUnits(es[0]) <= values[v..]
            && u' <= |units| && units[u'..] == Units(es[1..])
            && v' <= |values| && values[v'..] == Values(es[1..])
            && Descriptors(es, u, v)[0] == DescriptorOf(es[0], u, v)
            && Descriptors(es, u, v)[1..] == Descriptors(es[1..], u', v')
  {
    SplitArena(units, u, es[0].key.units, Units(es[1..]));
    SplitArena(values, v, ValueUnits(es[0]), Values(es[1..]));
  }

  /** From position `(u, v)` on, descriptors and arenas are the packing of these entries. */
  ghost predicate PackedFrom(ds: seq<Descriptor>, units: seq<nat>, values: seq<nat>, u: nat, v: nat, es: seq<Entry>) {
    && u <= |units| && v <= |values|
    && ds == Descriptors(es, u, v) && units[u..] == Units(es) && values[v..] == Values(es)
  }

  lemma PackedNone(units: seq<nat>, values: seq<nat>)
    ensures PackedFrom([], units, values, |units|, |values|, [])
  {
  }

  /** What one decoded descriptor adds to a sound scan of the rest. */
  lemma SoundTurn(c: Config, ds: seq<Descriptor>, units: seq<nat>, values: seq<nat>,
                  u: nat, v: nat, previous: Option<Key>, e: Entry, rest: seq<Entry>)
    requires ds != [] && DecodeOne(c, ds[0], units, values, u, v, previous) == Some(e)
    requires u <= |units| <= WordMax(c.runtime) && v <= |values| <= WordMax(c.runtime)
    ensures u + ds[0].unitLen <= |units| && v + ds[0].valueLen <= |values|
    ensures PackedFrom(ds[1..], units, values, u + ds[0].unitLen, v + ds[0].valueLen, rest) ==>
              PackedFrom(ds, units, values, u, v, [e] + rest)
  {
    DecodeOneIff(c, ds[0], units, values, u, v, previous, e);
    SplitArena(units, u, e.key.units, []);
    SplitArena(values, v, ValueUnits(e), []);
    if PackedFrom(ds[1..], units, values, u + ds[0].unitLen, v + ds[0].valueLen, rest) {
      PackFront(e, rest, ds[1..], units, values, u, v);
      assert ds == [ds[0]] + ds[1..];
    }
  }

  /** A scan that goes through found the arenas to be the packing of what it decoded. */
  lemma {:induction false} ScanSound(c: Config, ds: seq<Descriptor>, units: seq<nat>, values: seq<nat>,
                                     u: nat, v: nat, previous: Option<Key>, s: Scan)
    requires u <= |units| <= WordMax(c.runtime) && v <= |values| <= WordMax(c.runtime)
    requires s == ScanFrom(c, ds, units, values, u, v, previous) && s.ok
    ensures PackedFrom(ds, units, values, u, v, s.entries)
    decreases |ds|
  {
    if ds == [] {
      PackedNone(units, values);
    } else {
      var head := DecodeOne(c, ds[0], units, values, u, v, previous);
      if head.None? {
        ScanNil(c, ds, units, values, u, v, previous);
      } else {
        var u', v' := u + ds[0].unitLen, v + ds[0].valueLen;
        var rest := ScanFrom(c, ds[1..], units, values, u', v', Some(head.value.key));
        ScanCons(c, ds, units, values, u, v, previous, head.value);
        SoundTurn(c, ds, units, values, u, v, previous, head.value, rest.entries);
        ScanSound(c, ds[1..], units, values, u', v', Some(head.value.key), rest);
      }
    }
  }

  /** One more admissible entry in front. */
  lemma ContinuesFront(c: Config, previous: Option<Key>, e: Entry, rest: seq<Entry>)
    requires EntryOk(c, e) && MayFollow(previous, e.key)
    requires Continues(Some(e.key), rest) && forall i :: 0 <= i < |rest| ==> EntryOk(c, rest[i])
    ensures Continues(previous, [e] + rest) && forall i :: 0 <= i < |[e] + rest| ==> EntryOk(c, ([e] + rest)[i])
  {
    assert ([e] + rest)[1..] == rest;
    TailKeys([e] + rest);
  }

  /** What a scan decodes, even one that fails later, are admissible entries in order. */
  lemma {:induction false} ScanAdmissible(c: Config, ds: seq<Descriptor>, units: seq<nat>, values: seq<nat>,
                                          u: nat, v: nat, previous: Option<Key>, s: Scan)
    requires |units| <= WordMax(c.runtime) && |values| <= WordMax(c.runtime)
    requires u <= |units| && v <= |values|
    requires s == ScanFrom(c, ds, units, values, u, v, previous)
    ensures Continues(previous, s.entries) && forall i :: 0 <= i < |s.entries| ==> EntryOk(c, s.entries[i])
    decreases |ds|
  {
    if ds != [] {
      var head := DecodeOne(c, ds[0], units, values, u, v, previous);
      if head.None? {
        ScanNil(c, ds, units, values, u, v, previous);
      } else {
        var e := head.value;
        DecodeOneIff(c, ds[0], units, values, u, v, previous, e);
        SplitArena(units, u, e.key.units, []);
        SplitArena(values, v, ValueUnits(e), []);
        ScanCons(c, ds, units, values, u, v, previous, e);
        var rest := ScanFrom(c, ds[1..], units, values, u + ds[0].unitLen, v + ds[0].valueLen, Some(e.key));
        ScanAdmissible(c, ds[1..], units, values, u + ds[0].unitLen, v + ds[0].valueLen, Some(e.key), rest);
        ContinuesFront(c, previous, e, rest.entries);
      }
    }
  }

  /** The first of admissible entries, and the rest. */
  lemma ContinuesTail(c: Config, previous: Option<Key>, es: seq<Entry>)
    requires es != [] && Continues(previous, es) && forall i :: 0 <= i < |es| ==> EntryOk(c, es[i])
    ensures EntryOk(c, es[0]) && MayFollow(previous, es[0].key)
    ensures Continues(Some(es[0].key), es[1..]) && forall i :: 0 <= i < |es[1..]| ==> EntryOk(c, es[1..][i])
  {
    TailKeys(es);
  }

  /** The loop goes through and yields exactly these entries. */
  ghost predicate Yields(c: Config, ds: seq<Descriptor>, units: seq<nat>, values: seq<nat>,
                         u: nat, v: nat, previous: Option<Key>, es: seq<Entry>)
  {
    ScanFrom(c, ds, units, values, u, v, previous) == Scan(es, true)
  }

  lemma YieldsNone(c: Config, units: seq<nat>, values: seq<nat>, previous: Option<Key>)
    ensures Yields(c, [], units, values, |units|, |values|, previous, [])
  {
  }

  /** If the first descriptor decodes to the first entry and the rest to the rest, all decode to all. */
  lemma YieldsFront(c: Config, es: seq<Entry>, ds: seq<Descriptor>, units: seq<nat>, values: seq<nat>,
                    u: nat, v: nat, previous: Option<Key>)
    requires es != [] && ds != [] && DecodeOne(c, ds[0], units, values, u, v, previous) == Some(es[0])
    requires Yields(c, ds[1..], units, values, u + ds[0].unitLen, v + ds[0].valueLen, Some(es[0].key), es[1..])
    ensures Yields(c, ds, units, values, u, v, previous, es)
  {
    ScanCons(c, ds, units, values, u, v, previous, es[0]);
    assert es == [es[0]] + es[1..];
  }

  /** The packing of admissible entries is scanned to the end and yields the entries. */
  lemma {:induction false} ScanComplete(c: Config, es: seq<Entry>, ds: seq<Descriptor>, units: seq<nat>,
                                        values: seq<nat>, u: nat, v: nat, previous: Option<Key>)
    requires |units| <= WordMax(c.runtime) && |values| <= WordMax(c.runtime)
    requires ds == Descriptors(es, u, v)
    requires u <= |units| && units[u..] == Units(es)
    requires v <= |values| && values[v..] == Values(es)
    requires Continues(previous, es)
    requires forall i :: 0 <= i < |es| ==> EntryOk(c, es[i])
    ensures Yields(c, ds, units, values, u, v, previous, es)
    decreases |es|
  {
    if es == [] {
      YieldsNone(c, units, values, previous);
    } else {
      var e, rest := es[0], es[1..];
      UnpackFront(es, units, values, u, v);
      ContinuesTail(c, previous, es);
      DecodeOneIff(c, ds[0], units, values, u, v, previous, e);
      ScanComplete(c, rest, ds[1..], units, values, u + ds[0].unitLen, v + ds[0].valueLen, Some(e.key));
      YieldsFront(c, es, ds, units, values, u, v, previous);
    }
  }

  lemma {:induction false} DescriptorCount(es: seq<Entry>, u: nat, v: nat)
    ensures |Descriptors(es, u, v)| == |es|
    decreases |es|
  {
    if es != [] {
      DescriptorCount(es[1..], u + |es[0].key.units|, v + |ValueUnits(es[0])|);
    }
  }

  /** Unpacking inverts packing: an admissible list comes back as it was packed. */
  lemma UnpackAfterPack(c: Config, b: Batch, previous: Option<Key>, delivered: nat, es: seq<Entry>)
    requires FrameOk(c, b) && Packs(b, es) && Admissible(c, previous, delivered, es)
    ensures CopyBatch(c, b, previous, delivered) == Scan(es, true)
  {
    DescriptorCount(es, 0, 0);
    assert b.units[0..] == b.units && b.values[0..] == b.values;
    ScanComplete(c, es, b.descriptors, b.units, b.values, 0, 0, previous);
  }

  /** Packing inverts unpacking: an accepted batch is the packing of what was decoded. */
  lemma PackAfterUnpack(c: Config, b: Batch, previous: Option<Key>, delivered: nat)
    requires CopyBatch(c, b, previous, delivered).ok
    ensures var es := CopyBatch(c, b, previous, delivered).entries;
            FrameOk(c, b) && Packs(b, es) && Admissible(c, previous, delivered, es)
  {
    var s := ScanFrom(c, b.descriptors, b.units, b.values, 0, 0, previous);
    ScanSound(c, b.descriptors, b.units, b.values, 0, 0, previous, s);
    ScanAdmissible(c, b.descriptors, b.units, b.values, 0, 0, previous, s);
    DescriptorCount(CopyBatch(c, b, previous, delivered).entries, 0, 0);
    assert b.units[0..] == b.units && b.values[0..] == b.values;
  }

  // The contract of a batch in numbers, said without any predicate of the validation.

  /** Sizes: the caller's limits, the words of the runtime, and on the JVM sizes in bytes. */
  predicate SizesInContract(c: Config, entries: nat, units: nat, values: nat, delivered: nat) {
    && 0 < entries <= c.maxEntries && units <= c.maxUnits && values <= c.maxValues
    && (c.exactLength.Some? ==> delivered + entries <= c.exactLength.value)
    && match c.runtime
       case DotNet =>
         && units <= 0xffff_ffff_ffff_ffff && values <= 0xffff_ffff_ffff_ffff
         && delivered + entries <= 0xffff_ffff_ffff_ffff
       case Jvm =>
         && delivered + entries <= 0x7fff_ffff_ffff_ffff && entries * 40 <= 0x7fff_ffff_ffff_ffff
         && units * (if c.unitDomain.Byte? then 1 else if c.unitDomain.U64? then 8 else 4) <= 0x7fff_ffff_ffff_ffff
         && values * 8 <= 0x7fff_ffff_ffff_ffff
  }

  /** Addresses: null exactly for an empty arena, and aligned; a generation, and a reserved zero. */
  predicate FrameInContract(c: Config, b: Batch) {
    && b.generation != 0 && b.reserved == 0
    && (b.entriesAddress == 0 <==> b.descriptors == []) && b.entriesAddress % 8 == 0
    && (b.valuesAddress == 0 <==> b.values == []) && b.valuesAddress % 8 == 0
    && (b.unitsAddress == 0 <==> b.units == [])
    && (c.unitDomain.UnicodeScalar? ==> b.unitsAddress % 4 == 0)
    && (c.unitDomain.U64? ==> b.unitsAddress % 8 == 0)
  }

  /** Keys of the domain of the cursor, short enough for an array, and values only where it has any. */
  predicate EntryInContract(c: Config, e: Entry) {
    && e.key.domain == c.unitDomain && |e.key.units| <= 0x7fff_ffff
    && (c.unitDomain.UnicodeScalar? ==>
          forall i :: 0 <= i < |e.key.units| ==>
            e.key.units[i] < 0xd800 || 0xdfff < e.key.units[i] <= 0x10_ffff)
    && (e.value.Some? ==> c.valueDomain.OptionalU64?)
  }

  /** Each key greater than the one before, the first greater than the last key delivered. */
  predicate OrderInContract(previous: Option<Key>, es: seq<Entry>) {
    && (previous.Some? && es != [] ==> Precedes(previous.value, es[0].key))
    && forall i :: 0 < i < |es| ==> Precedes(es[i - 1].key, es[i].key)
  }

  predicate InContract(c: Config, b: Batch, previous: Option<Key>, delivered: nat, es: seq<Entry>) {
    && SizesInContract(c, |es|, |Units(es)|, |Values(es)|, delivered)
    && FrameInContract(c, b)
    && (forall i :: 0 <= i < |es| ==> EntryInContract(c, es[i]))
    && OrderInContract(previous, es)
  }

  lemma SizesIff(c: Config, entries: nat, units: nat, values: nat, delivered: nat)
    ensures SizesInContract(c, entries, units, values, delivered)
            <==> CountsOk(c, entries, units, values) && TotalOk(c, delivered + entries)
  {
  }

  lemma FrameIff(c: Config, b: Batch)
    ensures FrameInContract(c, b) <==> FrameOk(c, b)
  {
  }

  lemma OrderIff(previous: Option<Key>, es: seq<Entry>)
    ensures OrderInContract(previous, es) <==> Continues(previous, es)
  {
    var keys := KeysOf(es);
    assert forall i :: 0 <= i < |es| ==> keys[i] == es[i].key;
    if Continues(previous, es) {
      forall i | 0 < i < |es| ensures Precedes(es[i - 1].key, es[i].key) {
        assert Precedes(keys[i - 1], keys[i]);
      }
    }
    if OrderInContract(previous, es) {
      forall i | 0 < i < |keys| ensures Precedes(keys[i - 1], keys[i]) {
        assert Precedes(es[i - 1].key, es[i].key);
      }
    }
  }

  lemma EntryIff(c: Config, e: Entry)
    ensures EntryInContract(c, e) <==> EntryOk(c, e)
  {
  }

  lemma ContractIff(c: Config, b: Batch, previous: Option<Key>, delivered: nat, es: seq<Entry>)
    ensures InContract(c, b, previous, delivered, es) <==> FrameOk(c, b) && Admissible(c, previous, delivered, es)
  {
    SizesIff(c, |es|, |Units(es)|, |Values(es)|, delivered);
    FrameIff(c, b);
    OrderIff(previous, es);
    forall i | 0 <= i < |es| ensures EntryInContract(c, es[i]) <==> EntryOk(c, es[i]) {
      EntryIff(c, es[i]);
    }
  }

  /** The packing of a list is accepted, as that list, exactly if all of the contract holds. */
  lemma PackedAcceptedIff(c: Config, b: Batch, previous: Option<Key>, delivered: nat, es: seq<Entry>)
    requires Packs(b, es)
    ensures CopyBatch(c, b, previous, delivered) == Scan(es, true) <==> InContract(c, b, previous, delivered, es)
  {
    ContractIff(c, b, previous, delivered, es);
    if CopyBatch(c, b, previous, delivered) == Scan(es, true) {
      PackAfterUnpack(c, b, previous, delivered);
    }
    if InContract(c, b, previous, delivered, es) {
      UnpackAfterPack(c, b, previous, delivered, es);
    }
  }

  /** A batch is accepted exactly if it packs some list of entries within the contract. */
  lemma AcceptedIffPacking(c: Config, b: Batch, previous: Option<Key>, delivered: nat)
    ensures CopyBatch(c, b, previous, delivered).ok <==>
            exists es :: Packs(b, es) && InContract(c, b, previous, delivered, es)
  {
    if CopyBatch(c, b, previous, delivered).ok {
      var es := CopyBatch(c, b, previous, delivered).entries;
      PackAfterUnpack(c, b, previous, delivered);
      ContractIff(c, b, previous, delivered, es);
      assert Packs(b, es) && InContract(c, b, previous, delivered, es);
    }
    if es :| Packs(b, es) && InContract(c, b, previous, delivered, es) {
      PackedAcceptedIff(c, b, previous, delivered, es);
    }
  }

  /** What the JVM demands beyond .NET: sizes in bytes and the running total fit a signed word. */
  predicate FitsJvm(c: Config, b: Batch, delivered: nat) {
    && |b.descriptors| * 40 <= MAX_INT64
    && |b.units| * UnitSize(c.unitDomain) <= MAX_INT64 && |b.values| * 8 <= MAX_INT64
    && delivered + |b.descriptors| <= MAX_INT64
  }

  /** Both bindings accept the same batches, as the same entries, up to that. */
  lemma RuntimesAgree(c: Config, b: Batch, previous: Option<Key>, delivered: nat)
    ensures var jvm, dotNet := CopyBatch(c.(runtime := Jvm), b, previous, delivered),
                               CopyBatch(c.(runtime := DotNet), b, previous, delivered);
            && (jvm.ok <==> dotNet.ok && FitsJvm(c, b, delivered))
            && (jvm.ok ==> jvm == dotNet)
  {
    var j, n := c.(runtime := Jvm), c.(runtime := DotNet);
    if CopyBatch(n, b, previous, delivered).ok && FitsJvm(c, b, delivered) {
      PackAfterUnpack(n, b, previous, delivered);
      SameAdmission(c, n, j, b, previous, delivered, CopyBatch(n, b, previous, delivered).entries);
    }
    if CopyBatch(j, b, previous, delivered).ok {
      PackAfterUnpack(j, b, previous, delivered);
      DescriptorCount(CopyBatch(j, b, previous, delivered).entries, 0, 0);
      SameAdmission(c, j, n, b, previous, delivered, CopyBatch(j, b, previous, delivered).entries);
    }
  }

  lemma SameAdmission(c: Config, from: Config, into: Config, b: Batch, previous: Option<Key>, delivered: nat,
                      es: seq<Entry>)
    requires from == c.(runtime := from.runtime) && into == c.(runtime := into.runtime)
    requires FrameOk(from, b) && Packs(b, es) && Admissible(from, previous, delivered, es)
    requires into.runtime.Jvm? ==> FitsJvm(c, b, delivered)
    ensures CopyBatch(into, b, previous, delivered) == Scan(es, true)
  {
    DescriptorCount(es, 0, 0);
    forall i | 0 <= i < |es| ensures EntryOk(into, es[i]) {
      assert EntryOk(from, es[i]);
    }
    UnpackAfterPack(into, b, previous, delivered, es);
  }
}
