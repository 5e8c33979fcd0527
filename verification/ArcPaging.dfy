/**
 Paging of the arcs of a scalar-WFST state.

 Providers slice: `wfstHost.stateArcsPage` (bindings/go/wfst.go), `wfst_context::state_arcs`
 (interop.hpp), `WfstExports.StateArcs` (ScalarWfstProviders.cs) and `_wfst_state_arcs`
 (bindings/python).  Consumers reassemble: `ScalarWfst.StateArcs` with `abiWfstArcPage` in Go,
 and `ScalarWfst.arcs` in Python.
 */
module ArcPaging {
  import opened Interop

  /** Weights are opaque but for NaN. */
  datatype Weight = NaN | Number(bits: nat)

  datatype Arc = Arc(input: Option<nat>, output: Option<nat>, target: nat, weight: Weight)

  /** An arc of the ABI: labels with presence flags and reserved bytes, which may hold anything. */
  datatype RawArc = RawArc(input: nat, output: nat, target: nat, weight: Weight, hasInput: nat, hasOutput: nat,
                           reserved: nat)

  const BLANK := RawArc(0, 0, 0, Number(0), 0, 0, 0)

  /** What an arc stands for: a label counts only with its flag; Go keeps both, Python drops it. */
  function Decode(raw: RawArc): Arc {
    Arc(if raw.hasInput == 1 then Some(raw.input) else None,
        if raw.hasOutput == 1 then Some(raw.output) else None, raw.target, raw.weight)
  }

  function Encode(arc: Arc): RawArc {
    RawArc(if arc.input.Some? then arc.input.value else 0, if arc.output.Some? then arc.output.value else 0,
           arc.target, arc.weight, if arc.input.Some? then 1 else 0, if arc.output.Some? then 1 else 0, 0)
  }

  function Decoded(raws: seq<RawArc>): seq<Arc> {
    seq(|raws|, i requires 0 <= i < |raws| => Decode(raws[i]))
  }

  function Encoded(arcs: seq<Arc>): seq<RawArc> {
    seq(|arcs|, i requires 0 <= i < |arcs| => Encode(arcs[i]))
  }

  lemma DecodeAfterEncode(arcs: seq<Arc>)
    ensures Decoded(Encoded(arcs)) == arcs
  {
    forall i | 0 <= i < |arcs| ensures Decode(Encode(arcs[i])) == arcs[i] {
    }
  }

  const MAX_PAGE: nat := 0x10_0000

  type Word = x: nat | x < TWO_64

  // ---------------------------------------------------------------- slicing

  predicate LabelOk(d: UnitDomain, text: Option<nat>) {
    text.Some? ==>
      match d
      case Byte => text.value <= 0xff
      case UnicodeScalar => IsScalar(text.value)
      case U64 => true
  }

  predicate ArcOk(d: UnitDomain, arc: Arc) {
    !arc.weight.NaN? && LabelOk(d, arc.input) && LabelOk(d, arc.output)
  }

  predicate AllOk(d: UnitDomain, arcs: seq<Arc>) {
    forall i :: 0 <= i < |arcs| ==> ArcOk(d, arcs[i])
  }

  /** The page the ABI promises: the arcs from `start` on, as many as fit. */
  function Slice<T>(arcs: seq<T>, start: nat, capacity: nat): seq<T> {
    if start >= |arcs| then []
    else arcs[start..if start + capacity < |arcs| then start + capacity else |arcs|]
  }

  datatype Page = Page(arcs: seq<Arc>, total: nat) | Rejected(status: nat)

  /** What a page of Go's slicer and of the other three is. */
  function GoPage(d: UnitDomain, arcs: seq<Arc>, start: nat, capacity: nat): Page {
    if capacity > MAX_PAGE then Rejected(LIMIT_EXCEEDED)
    else if !AllOk(d, arcs) then Rejected(PROVIDER_ERROR)
    else Page(Slice(arcs, start, capacity), |arcs|)
  }

  function LocalPage(d: UnitDomain, arcs: seq<Arc>, start: nat, capacity: nat): Page {
    if AllOk(d, Slice(arcs, start, capacity)) then Page(Slice(arcs, start, capacity), |arcs|)
    else Rejected(PROVIDER_ERROR)
  }

  /** Go's 64-bit sum does not wrap for a start within the arcs. */
  lemma NoWrap(start: nat, capacity: nat, total: nat)
    requires start < total <= MAX_INT64 && capacity <= MAX_PAGE
    ensures (start + capacity) % TWO_64 == start + capacity
  {
  }

  /** Go copies and validates every arc before it slices. */
  method SliceGo(d: UnitDomain, arcs: seq<Arc>, start: Word, capacity: nat) returns (page: Page)
    requires |arcs| <= MAX_INT64
    ensures page == GoPage(d, arcs, start, capacity)
  {
    if capacity > MAX_PAGE {
      return Rejected(LIMIT_EXCEEDED);
    }
    for index := 0 to |arcs|
      invariant forall k :: 0 <= k < index ==> ArcOk(d, arcs[k])
    {
      if !ArcOk(d, arcs[index]) {
        return Rejected(PROVIDER_ERROR);
      }
    }
    var total := |arcs|;
    if start >= total {
      return Page([], total);
    }
    var end := (start + capacity) % TWO_64;
    NoWrap(start, capacity, total);
    if end > total {
      end := total;
    }
    return Page(arcs[start..end], total);
  }

  /** Both flags are booleans and the reserved bytes are zero. */
  predicate WellFormed(raw: RawArc) {
    raw.hasInput <= 1 && raw.hasOutput <= 1 && raw.reserved == 0
  }

  /** C++ providers hand out arcs of the ABI; this is the check of one of them. */
  predicate RawArcOk(d: UnitDomain, raw: RawArc) {
    && WellFormed(raw)
    && (raw.hasInput != 0 ==> LabelOk(d, Some(raw.input)))
    && (raw.hasOutput != 0 ==> LabelOk(d, Some(raw.output)))
    && !raw.weight.NaN?
  }

  predicate AllRawOk(d: UnitDomain, raws: seq<RawArc>) {
    forall i :: 0 <= i < |raws| ==> RawArcOk(d, raws[i])
  }

  /** What a page of the C++ slicer is. */
  function RawPage(d: UnitDomain, raws: seq<RawArc>, start: nat, capacity: nat): Page {
    if AllRawOk(d, Slice(raws, start, capacity)) then Page(Decoded(Slice(raws, start, capacity)), |raws|)
    else Rejected(PROVIDER_ERROR)
  }

  /** Where a page begins and how long it is, by the arithmetic of C++ and .NET. */
  lemma SliceBounds<T>(arcs: seq<T>, start: nat, capacity: nat)
    ensures var first := if start < |arcs| then start else |arcs|;
            var count := if start >= |arcs| then 0 else if capacity < |arcs| - start then capacity else |arcs| - start;
            Slice(arcs, start, capacity) == arcs[first..first + count] && count <= capacity
  {
  }

  /** One more element of the page is in its place. */
  lemma CopiedOne(output: seq<RawArc>, before: seq<RawArc>, page: seq<RawArc>, index: nat)
    requires index < |page| <= |output| == |before|
    requires output[..index] == page[..index] && output[index] == page[index]
    requires output[index + 1..] == before[index + 1..]
    ensures output[..index + 1] == page[..index + 1]
  {
  }

  /** C++ validates the arcs of the page and then copies them to the caller's buffer. */
  method SliceIntoBuffer(d: UnitDomain, arcs: seq<RawArc>, start: nat, output: array<RawArc>, capacity: nat)
    returns (status: nat, written: nat, total: nat)
    requires capacity <= output.Length
    modifies output
    ensures written <= capacity && (status != OK ==> written == 0)
    ensures RawPage(d, arcs, start, capacity)
            == if status == OK then Page(Decoded(output[..written]), total) else Rejected(status)
    ensures status == OK ==> output[..written] == Slice(arcs, start, capacity)
    ensures output[written..] == old(output[..])[written..]
  {
    total, written := |arcs|, 0;
    var first := if start < |arcs| then start else |arcs|;
    var count := if start >= |arcs| then 0 else if capacity < |arcs| - start then capacity else |arcs| - start;
    ghost var slice := Slice(arcs, start, capacity);
    SliceBounds(arcs, start, capacity);
    for index := 0 to count
      invariant AllRawOk(d, slice[..index])
    {
      assert arcs[first + index] == slice[index];
      if !RawArcOk(d, arcs[first + index]) {
        return PROVIDER_ERROR, 0, total;
      }
      assert slice[..index + 1] == slice[..index] + [slice[index]];
    }
    assert slice[..count] == slice;
    for index := 0 to count
      invariant output[..index] == slice[..index] && output[index..] == old(output[..])[index..]
    {
      output[index] := arcs[first + index];
      CopiedOne(output[..], old(output[..]), slice, index);
    }
    status, written := OK, count;
  }

  /** The first loop of .NET, over the arcs of the page. */
  method ValidatePage(d: UnitDomain, arcs: seq<Arc>, first: nat, count: nat) returns (ok: bool)
    requires first + count <= |arcs|
    ensures ok <==> AllOk(d, arcs[first..first + count])
  {
    ghost var page := arcs[first..first + count];
    for index := 0 to count
      invariant forall k :: 0 <= k < index ==> ArcOk(d, page[k])
    {
      assert arcs[first + index] == page[index];
      if !ArcOk(d, arcs[first + index]) {
        return false;
      }
    }
    ok := true;
  }

  /** .NET validates the arcs of the page and then encodes them into the caller's buffer. */
  method SliceEncoded(d: UnitDomain, arcs: seq<Arc>, start: nat, output: array<RawArc>, capacity: nat)
    returns (status: nat, written: nat, total: nat)
    requires capacity <= output.Length
    modifies output
    ensures written <= capacity && (status != OK ==> written == 0)
    ensures LocalPage(d, arcs, start, capacity)
            == if status == OK then Page(Decoded(output[..written]), total) else Rejected(status)
    ensures status == OK ==> output[..written] == Encoded(Slice(arcs, start, capacity))
    ensures output[written..] == old(output[..])[written..]
  {
    total, written := |arcs|, 0;
    var first := if start < |arcs| then start else |arcs|;
    var count := if start >= |arcs| then 0 else if capacity < |arcs| - start then capacity else |arcs| - start;
    ghost var slice := Slice(arcs, start, capacity);
    SliceBounds(arcs, start, capacity);
    var ok := ValidatePage(d, arcs, first, count);
    if !ok {
      return PROVIDER_ERROR, 0, total;
    }
    ghost var page := Encoded(slice);
    DecodeAfterEncode(slice);
    for index := 0 to count
      invariant output[..index] == page[..index] && output[index..] == old(output[..])[index..]
    {
      output[index] := Encode(arcs[first + index]);
      CopiedOne(output[..], old(output[..]), page, index);
    }
    assert page[..count] == page;
    status, written := OK, count;
  }

  /** Python slices first (a Python slice is clamped) and encodes the page completely before it writes. */
  method SlicePython(d: UnitDomain, arcs: seq<Arc>, start: nat, capacity: nat) returns (page: Page)
    ensures page == LocalPage(d, arcs, start, capacity)
  {
    var from := if start < |arcs| then start else |arcs|;
    var upto := if start + capacity < |arcs| then start + capacity else |arcs|;
    var slice := arcs[from..upto];
    assert slice == Slice(arcs, start, capacity);
    var encoded: seq<Arc> := [];
    for index := 0 to |slice|
      invariant encoded == slice[..index] && AllOk(d, encoded)
    {
      if !ArcOk(d, slice[index]) {
        return Rejected(PROVIDER_ERROR);
      }
      encoded := encoded + [slice[index]];
    }
    return Page(encoded, |arcs|);
  }

  lemma SliceOk(d: UnitDomain, arcs: seq<Arc>, start: nat, capacity: nat)
    requires AllOk(d, arcs)
    ensures AllOk(d, Slice(arcs, start, capacity))
  {
    var slice := Slice(arcs, start, capacity);
    forall j | 0 <= j < |slice| ensures ArcOk(d, slice[j]) {
      assert slice[j] == arcs[start + j];
    }
  }

  /**
   The slicers agree exactly if Go's page limit is kept and an invalid arc, if there is one,
   does not hide outside the page: Go looks at all arcs, the others only at the page.
   */
  lemma SlicersAgreeIff(d: UnitDomain, arcs: seq<Arc>, start: nat, capacity: nat)
    ensures GoPage(d, arcs, start, capacity) == LocalPage(d, arcs, start, capacity) <==>
            capacity <= MAX_PAGE && (AllOk(d, arcs) || !AllOk(d, Slice(arcs, start, capacity)))
  {
    if AllOk(d, arcs) {
      SliceOk(d, arcs, start, capacity);
    }
  }

  /** An arc that may be served: a label there is must be of the domain, and the weight a number. */
  predicate Servable(d: UnitDomain, arc: Arc) {
    && arc.weight != NaN
    && (d == Byte ==> (arc.input.Some? ==> arc.input.value < 256) && (arc.output.Some? ==> arc.output.value < 256))
    && (d == UnicodeScalar ==>
          && (arc.input.Some? ==> arc.input.value < 0xd800 || 0xdfff < arc.input.value <= 0x10_ffff)
          && (arc.output.Some? ==> arc.output.value < 0xd800 || 0xdfff < arc.output.value <= 0x10_ffff))
  }

  lemma ServableIff(d: UnitDomain, arc: Arc)
    ensures Servable(d, arc) <==> ArcOk(d, arc)
  {
  }

  /** The arcs from `start` on, at most `capacity`, of all there are. */
  predicate IsPageOf(page: Page, arcs: seq<Arc>, start: nat, capacity: nat) {
    && page.Page? && page.total == |arcs|
    && |page.arcs| == (if start >= |arcs| then 0 else if capacity <= |arcs| - start then capacity else |arcs| - start)
    && forall i :: 0 <= i < |page.arcs| ==> start + i < |arcs| && page.arcs[i] == arcs[start + i]
  }

  /** What Go serves: the page, unless more than 2^20 arcs are asked for or some arc is not servable. */
  lemma GoServes(d: UnitDomain, arcs: seq<Arc>, start: nat, capacity: nat)
    ensures var page := GoPage(d, arcs, start, capacity);
            if capacity > 0x10_0000 then page == Rejected(7)
            else if exists i :: 0 <= i < |arcs| && !Servable(d, arcs[i]) then page == Rejected(8)
            else IsPageOf(page, arcs, start, capacity)
  {
    forall i | 0 <= i < |arcs| ensures Servable(d, arcs[i]) <==> ArcOk(d, arcs[i]) {
      ServableIff(d, arcs[i]);
    }
  }

  /** What .NET and Python serve: the page, unless some arc of the page is not servable. */
  lemma LocalServes(d: UnitDomain, arcs: seq<Arc>, start: nat, capacity: nat)
    ensures var page := LocalPage(d, arcs, start, capacity);
            if exists i :: start <= i < start + capacity && i < |arcs| && !Servable(d, arcs[i])
            then page == Rejected(8) else IsPageOf(page, arcs, start, capacity)
  {
    var slice := Slice(arcs, start, capacity);
    forall i | start <= i < start + capacity && i < |arcs|
      ensures slice[i - start] == arcs[i] && (Servable(d, arcs[i]) <==> ArcOk(d, slice[i - start]))
    {
      ServableIff(d, arcs[i]);
    }
    forall i | 0 <= i < |slice|
      ensures slice[i] == arcs[start + i] && (Servable(d, arcs[start + i]) <==> ArcOk(d, slice[i]))
    {
      ServableIff(d, arcs[start + i]);
    }
  }

  predicate RawServable(d: UnitDomain, raw: RawArc) {
    raw.hasInput < 2 && raw.hasOutput < 2 && raw.reserved == 0 && Servable(d, Decode(raw))
  }

  /**
   What C++ serves: what the arcs of the page stand for, unless one of them has a flag beyond one, a
   reserved byte that is not zero, or is not servable.
   */
  lemma CppServes(d: UnitDomain, raws: seq<RawArc>, start: nat, capacity: nat)
    ensures var page := RawPage(d, raws, start, capacity);
            if exists i :: start <= i < start + capacity && i < |raws| && !RawServable(d, raws[i])
            then page == Rejected(8) else IsPageOf(page, Decoded(raws), start, capacity)
  {
    var slice := Slice(raws, start, capacity);
    forall i | 0 <= i < |slice|
      ensures slice[i] == raws[start + i]
      ensures RawArcOk(d, slice[i]) <==> RawServable(d, slice[i])
    {
      ServableIff(d, Decode(slice[i]));
    }
    forall i | start <= i < start + capacity && i < |raws| ensures slice[i - start] == raws[i] {
    }
  }

  /**
   C++ agrees with .NET and Python on what its arcs stand for, unless an arc of the page has a
   flag beyond one or a reserved byte that is not zero, and its labels and weight are in order.
   */
  lemma RawAgreesIff(d: UnitDomain, raws: seq<RawArc>, start: nat, capacity: nat)
    ensures var slice := Slice(raws, start, capacity);
            RawPage(d, raws, start, capacity) == LocalPage(d, Decoded(raws), start, capacity) <==>
            (forall i :: 0 <= i < |slice| ==> WellFormed(slice[i])) || !AllOk(d, Decoded(slice))
  {
    var slice := Slice(raws, start, capacity);
    assert Slice(Decoded(raws), start, capacity) == Decoded(slice);
    forall i | 0 <= i < |slice| ensures RawArcOk(d, slice[i]) ==> WellFormed(slice[i]) && ArcOk(d, Decoded(slice)[i]) {
    }
    forall i | 0 <= i < |slice| ensures WellFormed(slice[i]) ==> RawArcOk(d, slice[i]) == ArcOk(d, Decoded(slice)[i]) {
    }
  }

  // ---------------------------------------------------------------- reassembling

  datatype Consumer = Go | Python

  /** One answer of a provider: any status, any counts, any buffer contents. */
  datatype Reply = Reply(status: nat, buffer: nat -> RawArc, written: Word, total: Word)

  /** The answer may depend on how often the provider was asked, and for which position. */
  type Provider = (nat, nat) -> Reply

  predicate RawOk(consumer: Consumer, raw: RawArc) {
    raw.hasInput <= 1 && raw.hasOutput <= 1 && (consumer.Python? ==> !raw.weight.NaN?)
  }

  /** The checks on one page; Go's addition of 64-bit words may wrap, Python has none. */
  predicate BoundsOk(consumer: Consumer, r: Reply, start: nat, capacity: nat) {
    && r.written <= capacity && start <= r.total
    && (consumer.Go? ==> (start + r.written) % TWO_64 <= r.total)
  }

  predicate PageOk(consumer: Consumer, r: Reply, start: nat, capacity: nat) {
    && r.status == OK && BoundsOk(consumer, r, start, capacity)
    && forall i :: 0 <= i < r.written ==> RawOk(consumer, r.buffer(i))
  }

  function Arcs(r: Reply): seq<Arc> {
    seq(r.written, i requires 0 <= i < r.written => Decode(r.buffer(i)))
  }

  datatype Visit = Visit(start: nat, reply: Reply)

  datatype Result = Failed | Collected(arcs: seq<Arc>, visits: seq<Visit>)

  /**
   The reassembly loop after `visits`.  A Go slice cannot grow beyond the largest `int`, so
   `append` panics first.
   */
  function Collect(consumer: Consumer, p: Provider, batch: nat, got: seq<Arc>, visits: seq<Visit>,
                   expected: Option<Word>): Result
    decreases if expected.None? then TWO_64 else if |got| < expected.value then expected.value - |got| else 0
  {
    if expected.Some? && |got| >= expected.value then Collected(got, visits)
    else
      var r := p(|visits|, |got|);
      if !PageOk(consumer, r, |got|, batch) then Failed
      else if expected.Some? && r.total != expected.value then Failed
      else if r.written == 0 && |got| < r.total then Failed
      else if consumer.Go? && |got| + r.written > MAX_INT64 then Failed
      else Collect(consumer, p, batch, got + Arcs(r), visits + [Visit(|got|, r)], Some(r.total))
  }

  /** The loop of both consumers; the two only differ in the checks on one page. */
  method StateArcs(consumer: Consumer, p: Provider, batch: nat) returns (r: Result)
    requires 0 < batch
    ensures r == if consumer.Go? && batch > 0x10_0000 then Failed else Collect(consumer, p, batch, [], [], None)
  {
    if consumer.Go? && batch > MAX_PAGE {
      return Failed;
    }
    var result: seq<Arc>, visits: seq<Visit>, start, expected: Option<Word> := [], [], 0, None;
    while expected.None? || start < expected.value
      invariant start == |result|
      invariant Collect(consumer, p, batch, [], [], None) == Collect(consumer, p, batch, result, visits, expected)
      decreases if expected.None? then TWO_64 else if start < expected.value then expected.value - start else 0
    {
      var reply := p(|visits|, start);
      if reply.status != OK || reply.written > batch || start > reply.total {
        return Failed;
      }
      if consumer.Go? && (start + reply.written) % TWO_64 > reply.total {
        return Failed;
      }
      var page: seq<Arc> := [];
      for index := 0 to reply.written
        invariant |page| == index
        invariant forall k :: 0 <= k < index ==>
                    RawOk(consumer, reply.buffer(k)) && page[k] == Decode(reply.buffer(k))
      {
        if !RawOk(consumer, reply.buffer(index)) {
          return Failed;
        }
        page := page + [Decode(reply.buffer(index))];
      }
      assert page == Arcs(reply);
      if expected.Some? && reply.total != expected.value {
        return Failed;
      }
      if |page| == 0 && start < reply.total {
        return Failed;
      }
      if consumer.Go? && start + |page| > MAX_INT64 {
        return Failed;
      }
      visits := visits + [Visit(start, reply)];
      expected := Some(reply.total);
      result, start := result + page, start + |page|;
    }
    return Collected(result, visits);
  }

  /** Where the page after visit `k` starts. */
  function NextStart(visits: seq<Visit>, k: nat, end: nat): nat {
    if k + 1 < |visits| then visits[k + 1].start else end
  }

  /** Visit `k` is a reply of the provider, reports the common total and is followed by its successor. */
  ghost predicate VisitOk(p: Provider, visits: seq<Visit>, k: nat, end: nat, total: nat)
    requires k < |visits|
  {
    var v := visits[k];
    v.reply == p(k, v.start) && v.reply.total == total && v.start + v.reply.written == NextStart(visits, k, end)
  }

  /** The visits so far are contiguous from zero and agree on the total. */
  ghost predicate Contiguous(p: Provider, end: nat, visits: seq<Visit>, expected: Option<Word>) {
    && (if visits == [] then end == 0 && expected.None? else visits[0].start == 0 && expected.Some?)
    && (forall k :: 0 <= k < |visits| ==> VisitOk(p, visits, k, end, expected.value))
  }

  lemma ContiguousAppend(p: Provider, end: nat, visits: seq<Visit>, expected: Option<Word>)
    requires Contiguous(p, end, visits, expected)
    requires expected.Some? ==> p(|visits|, end).total == expected.value
    ensures var r := p(|visits|, end);
            Contiguous(p, end + r.written, visits + [Visit(end, r)], Some(r.total))
  {
    var r := p(|visits|, end);
    var more, end' := visits + [Visit(end, r)], end + r.written;
    forall k | 0 <= k < |more| ensures VisitOk(p, more, k, end', r.total) {
      if k < |visits| {
        assert VisitOk(p, visits, k, end, expected.value);
      }
    }
  }

  /** Each round adds its page, within the total when the consumer checks that. */
  lemma {:induction false} CollectMeaning(consumer: Consumer, p: Provider, batch: nat, got: seq<Arc>,
                                          visits: seq<Visit>, expected: Option<Word>)
    requires Contiguous(p, |got|, visits, expected)
    requires expected.Some? && consumer.Go? ==> |got| <= expected.value
    ensures var r := Collect(consumer, p, batch, got, visits, expected);
            r.Collected? ==>
              && r.visits != [] && Contiguous(p, |r.arcs|, r.visits, Some(r.visits[0].reply.total))
              && |r.arcs| >= r.visits[0].reply.total
              && (consumer.Go? ==> |r.arcs| == r.visits[0].reply.total)
    decreases if expected.None? then TWO_64 else if |got| < expected.value then expected.value - |got| else 0
  {
    if expected.None? || |got| < expected.value {
      var r := p(|visits|, |got|);
      if PageOk(consumer, r, |got|, batch) && (expected.Some? ==> r.total == expected.value)
         && (r.written > 0 || |got| >= r.total) && (consumer.Go? ==> |got| + r.written <= MAX_INT64)
      {
        ContiguousAppend(p, |got|, visits, expected);
        CollectMeaning(consumer, p, batch, got + Arcs(r), visits + [Visit(|got|, r)], Some(r.total));
      }
    } else {
      assert VisitOk(p, visits, 0, |got|, expected.value);
    }
  }

  /**
   Against any provider, however inconsistent, the Go loop ends, and on success it returns
   exactly as many arcs as every single page reported, taken from contiguous pages.
   */
  lemma GoTotalIsReported(p: Provider, batch: nat, k: nat)
    requires 0 < batch <= MAX_PAGE
    ensures var r := Collect(Go, p, batch, [], [], None);
            r.Collected? && k < |r.visits| ==>
              && r.visits[0].start == 0 && p(k, r.visits[k].start).total == |r.arcs|
              && r.visits[k].start + p(k, r.visits[k].start).written == NextStart(r.visits, k, |r.arcs|)
  {
    CollectMeaning(Go, p, batch, [], [], None);
    var r := Collect(Go, p, batch, [], [], None);
    if r.Collected? && k < |r.visits| {
      assert VisitOk(p, r.visits, k, |r.arcs|, r.visits[0].reply.total);
    }
  }

  // ---------------------------------------------------------------- pages beyond the total

  /** Where page `k` starts if the consumer asks for that many. */
  function Position(p: Provider, k: nat): nat {
    if k == 0 then 0 else Position(p, k - 1) + p(k - 1, Position(p, k - 1)).written
  }

  function PageAt(p: Provider, k: nat): Reply {
    p(k, Position(p, k))
  }

  /** The first page, and those that start before the total it reported. */
  predicate Asked(p: Provider, k: nat) {
    k == 0 || Position(p, k) < PageAt(p, 0).total
  }

  /** Page `k` claims arcs beyond the total it reports. */
  predicate Overshoots(p: Provider, k: nat) {
    Position(p, k) + PageAt(p, k).written > PageAt(p, k).total
  }

  /** No page that a consumer asks for claims arcs beyond its total. */
  ghost predicate StaysWithin(p: Provider) {
    forall k :: Asked(p, k) ==> !Overshoots(p, k)
  }

  lemma {:induction false} PositionGrows(p: Provider, j: nat, k: nat)
    requires j <= k
    ensures Position(p, j) <= Position(p, k)
  {
    if j < k {
      PositionGrows(p, j, k - 1);
    }
  }

  /** A successful loop has visited the first so many positions, and they are the ones asked for. */
  lemma {:induction false} VisitsAreAsked(consumer: Consumer, p: Provider, batch: nat, got: seq<Arc>,
                                          visits: seq<Visit>, expected: Option<Word>)
    requires |got| == Position(p, |visits|) && (expected.None? <==> visits == [])
    requires expected.Some? ==> expected.value == PageAt(p, 0).total
    requires forall k :: 0 <= k < |visits| ==> Asked(p, k) && PageAt(p, k).total == PageAt(p, 0).total
    ensures var r, total := Collect(consumer, p, batch, got, visits, expected), PageAt(p, 0).total;
            r.Collected? ==>
              && |r.visits| > 0 && |r.arcs| == Position(p, |r.visits|) >= total
              && (forall k :: 0 <= k < |r.visits| ==> Asked(p, k) && PageAt(p, k).total == total)
    decreases if expected.None? then TWO_64 else if |got| < expected.value then expected.value - |got| else 0
  {
    if expected.None? || |got| < expected.value {
      var r := p(|visits|, |got|);
      if PageOk(consumer, r, |got|, batch) && (expected.Some? ==> r.total == expected.value)
         && (r.written > 0 || |got| >= r.total) && (consumer.Go? ==> |got| + r.written <= MAX_INT64)
      {
        assert r == PageAt(p, |visits|);
        VisitsAreAsked(consumer, p, batch, got + Arcs(r), visits + [Visit(|got|, r)], Some(r.total));
      }
    }
  }

  /** A result has exactly the reported length if and only if no page claims arcs beyond it. */
  lemma LengthIff(consumer: Consumer, p: Provider, batch: nat)
    requires Collect(consumer, p, batch, [], [], None).Collected?
    ensures var arcs, total := Collect(consumer, p, batch, [], [], None).arcs, PageAt(p, 0).total;
            |arcs| >= total && (|arcs| == total <==> StaysWithin(p))
  {
    VisitsAreAsked(consumer, p, batch, [], [], None);
    var c := Collect(consumer, p, batch, [], [], None);
    var last, total := |c.visits| - 1, PageAt(p, 0).total;
    assert Position(p, last + 1) == Position(p, last) + PageAt(p, last).written;
    assert Overshoots(p, last) <==> |c.arcs| > total;
    if |c.arcs| == total {
      forall k: nat | Asked(p, k) ensures !Overshoots(p, k) {
        if k <= last {
          PositionGrows(p, k + 1, last + 1);
        } else {
          PositionGrows(p, last + 1, k);
          assert false;
        }
      }
    }
  }

  // ---------------------------------------------------------------- when there is a result, and which

  /** Page `k` is in order, as a consumer can tell; Python does not look at its end, nor Go for NaN. */
  ghost predicate GoodPage(consumer: Consumer, p: Provider, batch: nat, k: nat) {
    var r, start, total := PageAt(p, k), Position(p, k), PageAt(p, 0).total;
    && r.status == 0 && r.written <= batch && start <= total && r.total == total
    && (start < total ==> r.written > 0)
    && (forall i :: 0 <= i < r.written ==> r.buffer(i).hasInput <= 1 && r.buffer(i).hasOutput <= 1)
    && (consumer == Python ==> forall i :: 0 <= i < r.written ==> r.buffer(i).weight != NaN)
    && (consumer == Go ==> start + r.written <= total && start + r.written <= 0x7fff_ffff_ffff_ffff)
  }

  /** Every page from `n` on that is asked for is in order. */
  ghost predicate GoodFrom(consumer: Consumer, p: Provider, batch: nat, n: nat) {
    forall k :: n <= k && Asked(p, k) ==> GoodPage(consumer, p, batch, k)
  }

  /** The checks of the loop on one page. */
  lemma PageChecks(consumer: Consumer, p: Provider, batch: nat, n: nat, expected: Option<Word>)
    requires if n == 0 then expected.None? else expected == Some(PageAt(p, 0).total)
    ensures var r, start := PageAt(p, n), Position(p, n);
            GoodPage(consumer, p, batch, n) <==>
            && PageOk(consumer, r, start, batch) && (expected.Some? ==> r.total == expected.value)
            && (r.written > 0 || start >= r.total) && (consumer.Go? ==> start + r.written <= MAX_INT64)
  {
    var r := PageAt(p, n);
    assert forall i :: 0 <= i < r.written ==>
             (RawOk(consumer, r.buffer(i)) <==>
              r.buffer(i).hasInput <= 1 && r.buffer(i).hasOutput <= 1
              && (consumer == Python ==> r.buffer(i).weight != NaN));
  }

  lemma NotAskedAfter(p: Provider, n: nat, k: nat)
    requires 0 < n <= k && Position(p, n) >= PageAt(p, 0).total
    ensures !Asked(p, k)
  {
    PositionGrows(p, n, k);
  }

  lemma {:induction false} CollectedFrom(consumer: Consumer, p: Provider, batch: nat, got: seq<Arc>,
                                         visits: seq<Visit>, expected: Option<Word>)
    requires |got| == Position(p, |visits|)
    requires if visits == [] then expected.None? else expected == Some(PageAt(p, 0).total)
    ensures Collect(consumer, p, batch, got, visits, expected).Collected? <==>
            GoodFrom(consumer, p, batch, |visits|)
    decreases if expected.None? then TWO_64 else if |got| < expected.value then expected.value - |got| else 0
  {
    var n := |visits|;
    if expected.Some? && |got| >= expected.value {
      forall k | n <= k ensures !Asked(p, k) {
        NotAskedAfter(p, n, k);
      }
    } else {
      var r := p(n, |got|);
      assert r == PageAt(p, n) && Asked(p, n);
      PageChecks(consumer, p, batch, n, expected);
      if GoodPage(consumer, p, batch, n) {
        CollectedFrom(consumer, p, batch, got + Arcs(r), visits + [Visit(|got|, r)], Some(r.total));
        assert GoodFrom(consumer, p, batch, n) <==> GoodFrom(consumer, p, batch, n + 1);
      }
    }
  }

  /** There is a result exactly if every page that is asked for is in order. */
  lemma CollectedIff(consumer: Consumer, p: Provider, batch: nat)
    ensures Collect(consumer, p, batch, [], [], None).Collected? <==>
            forall k :: Asked(p, k) ==> GoodPage(consumer, p, batch, k)
  {
    CollectedFrom(consumer, p, batch, [], [], None);
    assert GoodFrom(consumer, p, batch, 0) <==> forall k :: Asked(p, k) ==> GoodPage(consumer, p, batch, k);
  }

  /** The arcs of page `k` are where they belong. */
  ghost predicate InPlace(p: Provider, arcs: seq<Arc>, k: nat) {
    && Position(p, k + 1) <= |arcs|
    && forall i :: 0 <= i < PageAt(p, k).written ==> arcs[Position(p, k) + i] == Decode(PageAt(p, k).buffer(i))
  }

  ghost predicate FirstInPlace(p: Provider, arcs: seq<Arc>, n: nat) {
    |arcs| == Position(p, n) && forall k :: 0 <= k < n ==> InPlace(p, arcs, k)
  }

  lemma StaysInPlace(p: Provider, got: seq<Arc>, extra: seq<Arc>, k: nat)
    requires InPlace(p, got, k)
    ensures InPlace(p, got + extra, k)
  {
    forall i | 0 <= i < PageAt(p, k).written
      ensures (got + extra)[Position(p, k) + i] == Decode(PageAt(p, k).buffer(i))
    {
      assert (got + extra)[Position(p, k) + i] == got[Position(p, k) + i];
    }
  }

  lemma LastInPlace(p: Provider, got: seq<Arc>, n: nat)
    requires |got| == Position(p, n)
    ensures InPlace(p, got + Arcs(PageAt(p, n)), n)
  {
    var page := Arcs(PageAt(p, n));
    forall i | 0 <= i < PageAt(p, n).written
      ensures (got + page)[Position(p, n) + i] == Decode(PageAt(p, n).buffer(i))
    {
      assert (got + page)[|got| + i] == page[i];
    }
  }

  lemma OneMoreInPlace(p: Provider, got: seq<Arc>, n: nat)
    requires FirstInPlace(p, got, n)
    ensures FirstInPlace(p, got + Arcs(PageAt(p, n)), n + 1)
  {
    var more := got + Arcs(PageAt(p, n));
    forall k | 0 <= k <= n ensures InPlace(p, more, k) {
      if k < n {
        assert InPlace(p, got, k);
        StaysInPlace(p, got, Arcs(PageAt(p, n)), k);
      } else {
        LastInPlace(p, got, n);
      }
    }
  }

  lemma {:induction false} CollectsInPlace(consumer: Consumer, p: Provider, batch: nat, got: seq<Arc>,
                                           visits: seq<Visit>, expected: Option<Word>)
    requires FirstInPlace(p, got, |visits|)
    ensures var r := Collect(consumer, p, batch, got, visits, expected);
            r.Collected? ==> FirstInPlace(p, r.arcs, |r.visits|)
    decreases if expected.None? then TWO_64 else if |got| < expected.value then expected.value - |got| else 0
  {
    if expected.None? || |got| < expected.value {
      var r := p(|visits|, |got|);
      if PageOk(consumer, r, |got|, batch) && (expected.Some? ==> r.total == expected.value)
         && (r.written > 0 || |got| >= r.total) && (consumer.Go? ==> |got| + r.written <= MAX_INT64)
      {
        OneMoreInPlace(p, got, |visits|);
        CollectsInPlace(consumer, p, batch, got + Arcs(r), visits + [Visit(|got|, r)], Some(r.total));
      }
    }
  }

  /** And it is the arcs of the pages asked for, one page after the other. */
  lemma ResultIsPages(consumer: Consumer, p: Provider, batch: nat, k: nat)
    requires Collect(consumer, p, batch, [], [], None).Collected? && Asked(p, k)
    ensures InPlace(p, Collect(consumer, p, batch, [], [], None).arcs, k)
  {
    var c := Collect(consumer, p, batch, [], [], None);
    CollectsInPlace(consumer, p, batch, [], [], None);
    VisitsAreAsked(consumer, p, batch, [], [], None);
    if k >= |c.visits| {
      NotAskedAfter(p, |c.visits|, k);
    }
  }

  /** A page whose last arcs overshoot the total it reports. */
  function Overshooting(): Provider {
    (i, start) => Reply(OK, j => BLANK, 2, 1)
  }

  /**
   Python does not check the end of a page: it never returns fewer arcs than reported, and
   exactly as many if and only if no page it asks for runs past its total.  An inconsistent
   provider makes it return more.
   */
  lemma PythonMayOvershoot(p: Provider, batch: nat)
    ensures var r := Collect(Python, p, batch, [], [], None);
            r.Collected? ==> |r.arcs| >= p(0, 0).total && (|r.arcs| == p(0, 0).total <==> StaysWithin(p))
    ensures var r := Collect(Python, Overshooting(), 2, [], [], None);
            r.Collected? && |r.arcs| == 2 && Overshooting()(0, 0).total == 1
  {
    if Collect(Python, p, batch, [], [], None).Collected? {
      LengthIff(Python, p, batch);
    }
    var r := Overshooting()(0, 0);
    assert PageOk(Python, r, 0, 2) && |Arcs(r)| == 2;
    assert Collect(Python, Overshooting(), 2, [], [], None)
        == Collect(Python, Overshooting(), 2, [] + Arcs(r), [] + [Visit(0, r)], Some(1));
  }

  // ---------------------------------------------------------------- the two consumers compared

  /** Results only grow, and Go's stay within the largest `int`. */
  lemma {:induction false} CollectGrows(consumer: Consumer, p: Provider, batch: nat, got: seq<Arc>,
                                        visits: seq<Visit>, expected: Option<Word>)
    ensures var r := Collect(consumer, p, batch, got, visits, expected);
            r.Collected? ==> got <= r.arcs && (consumer.Go? && |got| <= MAX_INT64 ==> |r.arcs| <= MAX_INT64)
    decreases if expected.None? then TWO_64 else if |got| < expected.value then expected.value - |got| else 0
  {
    if expected.None? || |got| < expected.value {
      var r := p(|visits|, |got|);
      if PageOk(consumer, r, |got|, batch) && (expected.Some? ==> r.total == expected.value)
         && (r.written > 0 || |got| >= r.total) && (consumer.Go? ==> |got| + r.written <= MAX_INT64)
      {
        CollectGrows(consumer, p, batch, got + Arcs(r), visits + [Visit(|got|, r)], Some(r.total));
      }
    }
  }

  predicate NoNaN(arcs: seq<Arc>) {
    forall i :: 0 <= i < |arcs| ==> !arcs[i].weight.NaN?
  }

  /** Python's checks on a page are Go's, but for weights that are NaN. */
  lemma PageOkPython(r: Reply, start: nat, capacity: nat)
    requires PageOk(Go, r, start, capacity)
    ensures PageOk(Python, r, start, capacity) <==> NoNaN(Arcs(r))
  {
    forall i | 0 <= i < r.written ensures Arcs(r)[i].weight == r.buffer(i).weight {
    }
    if !NoNaN(Arcs(r)) {
      var i :| 0 <= i < |Arcs(r)| && Arcs(r)[i].weight.NaN?;
      assert !RawOk(Python, r.buffer(i));
    }
  }

  /** Python returns what Go returns, unless that contains a NaN. */
  lemma {:induction false} PythonFollowsGo(p: Provider, batch: nat, got: seq<Arc>, visits: seq<Visit>,
                                           expected: Option<Word>, go: Result)
    requires go == Collect(Go, p, batch, got, visits, expected) && go.Collected? && NoNaN(got)
    ensures Collect(Python, p, batch, got, visits, expected) == if NoNaN(go.arcs) then go else Failed
    decreases if expected.None? then TWO_64 else if |got| < expected.value then expected.value - |got| else 0
  {
    if expected.None? || |got| < expected.value {
      var r := p(|visits|, |got|);
      PageOkPython(r, |got|, batch);
      var more := got + Arcs(r);
      CollectGrows(Go, p, batch, more, visits + [Visit(|got|, r)], Some(r.total));
      if NoNaN(Arcs(r)) {
        PythonFollowsGo(p, batch, more, visits + [Visit(|got|, r)], Some(r.total), go);
      } else {
        var i :| 0 <= i < |Arcs(r)| && Arcs(r)[i].weight.NaN?;
        assert go.arcs[|got| + i] == Arcs(r)[i];
      }
    }
  }

  /** Go returns what Python returns, if that stays within the total and the largest `int`. */
  lemma {:induction false} GoFollowsPython(p: Provider, batch: nat, got: seq<Arc>, visits: seq<Visit>,
                                           expected: Option<Word>, python: Result, total: Word)
    requires python == Collect(Python, p, batch, got, visits, expected) && python.Collected?
    requires |python.arcs| <= total && |python.arcs| <= MAX_INT64
    requires if expected.Some? then expected.value == total else p(|visits|, |got|).total == total
    ensures Collect(Go, p, batch, got, visits, expected) == python
    decreases if expected.None? then TWO_64 else if |got| < expected.value then expected.value - |got| else 0
  {
    if expected.None? || |got| < expected.value {
      var r := p(|visits|, |got|);
      var more, visits' := got + Arcs(r), visits + [Visit(|got|, r)];
      CollectGrows(Python, p, batch, more, visits', Some(r.total));
      assert |got| + r.written <= total;
      assert forall i :: 0 <= i < r.written ==> RawOk(Python, r.buffer(i)) ==> RawOk(Go, r.buffer(i));
      GoFollowsPython(p, batch, more, visits', Some(r.total), python, total);
    }
  }

  /**
   What one consumer returns the other returns too, with two exceptions: Python refuses weights
   that are NaN, and Go refuses pages beyond their total, and more arcs than an `int` can count.
   */
  lemma ConsumersAgreeIff(p: Provider, batch: nat)
    requires 0 < batch <= MAX_PAGE
    ensures var go, python := Collect(Go, p, batch, [], [], None), Collect(Python, p, batch, [], [], None);
            && (go.Collected? ==> (python == go <==> NoNaN(go.arcs)))
            && (python.Collected? ==> (go == python <==> StaysWithin(p) && p(0, 0).total <= MAX_INT64))
  {
    var go, python := Collect(Go, p, batch, [], [], None), Collect(Python, p, batch, [], [], None);
    if go.Collected? {
      PythonFollowsGo(p, batch, [], [], None, go);
    }
    if python.Collected? {
      LengthIff(Python, p, batch);
      if StaysWithin(p) && p(0, 0).total <= MAX_INT64 {
        GoFollowsPython(p, batch, [], [], None, python, p(0, 0).total);
      }
      if go == python {
        CollectGrows(Go, p, batch, [], [], None);
        CollectMeaning(Go, p, batch, [], [], None);
        VisitsAreAsked(Go, p, batch, [], [], None);
        assert VisitOk(p, go.visits, 0, |go.arcs|, go.visits[0].reply.total);
      }
    }
  }

  predicate PageHasNumbers(r: Reply) {
    forall i :: 0 <= i < r.written ==> !r.buffer(i).weight.NaN?
  }

  ghost predicate NaNFree(p: Provider) {
    forall k: nat, start: nat :: PageHasNumbers(p(k, start))
  }

  lemma {:induction false} CollectsNumbers(consumer: Consumer, p: Provider, batch: nat, got: seq<Arc>,
                                           visits: seq<Visit>, expected: Option<Word>)
    requires NaNFree(p) && NoNaN(got)
    ensures var r := Collect(consumer, p, batch, got, visits, expected); r.Collected? ==> NoNaN(r.arcs)
    decreases if expected.None? then TWO_64 else if |got| < expected.value then expected.value - |got| else 0
  {
    if expected.None? || |got| < expected.value {
      var r := p(|visits|, |got|);
      assert PageHasNumbers(r);
      assert NoNaN(got + Arcs(r));
      if PageOk(consumer, r, |got|, batch) && (expected.Some? ==> r.total == expected.value)
         && (r.written > 0 || |got| >= r.total) && (consumer.Go? ==> |got| + r.written <= MAX_INT64)
      {
        CollectsNumbers(consumer, p, batch, got + Arcs(r), visits + [Visit(|got|, r)], Some(r.total));
      }
    }
  }

  /** So for weights that are numbers they differ exactly if Python succeeds on such pages. */
  lemma NumbersAgreeIff(p: Provider, batch: nat)
    requires 0 < batch <= MAX_PAGE && NaNFree(p)
    ensures var go, python := Collect(Go, p, batch, [], [], None), Collect(Python, p, batch, [], [], None);
            go == python <==> python.Failed? || (StaysWithin(p) && p(0, 0).total <= MAX_INT64)
  {
    ConsumersAgreeIff(p, batch);
    CollectsNumbers(Go, p, batch, [], [], None);
  }

  // ---------------------------------------------------------------- slicing and reassembling

  /** A provider that serves the promised slices of `arcs`. */
  function Slicing(arcs: seq<Arc>, capacity: nat): Provider
    requires |arcs| <= MAX_INT64
  {
    (i: nat, start: nat) =>
      var page := Slice(arcs, start, capacity);
      Reply(OK, (j: nat) => if j < |page| then Encode(page[j]) else BLANK, |page|, |arcs|)
  }

  lemma SliceExtends<T>(arcs: seq<T>, start: nat, capacity: nat)
    requires start <= |arcs|
    ensures var slice := Slice(arcs, start, capacity);
            && |slice| == (if start + capacity < |arcs| then capacity else |arcs| - start)
            && arcs[..start] + slice == arcs[..start + |slice|]
  {
  }

  /** Valid arcs come through encoding and the checks of a consumer unchanged. */
  lemma EncodedReply(consumer: Consumer, d: UnitDomain, arcs: seq<Arc>, r: Reply)
    requires AllOk(d, arcs) && r.written == |arcs|
    requires forall j :: 0 <= j < |arcs| ==> r.buffer(j) == Encode(arcs[j])
    ensures Arcs(r) == arcs && forall j :: 0 <= j < r.written ==> RawOk(consumer, r.buffer(j))
  {
    forall j | 0 <= j < r.written ensures RawOk(consumer, r.buffer(j)) && Decode(r.buffer(j)) == arcs[j] {
      assert ArcOk(d, arcs[j]);
    }
  }

  lemma SlicedReply(consumer: Consumer, d: UnitDomain, arcs: seq<Arc>, start: nat, batch: nat, i: nat)
    requires AllOk(d, arcs) && |arcs| <= MAX_INT64 && start <= |arcs|
    ensures var r := Slicing(arcs, batch)(i, start);
            && PageOk(consumer, r, start, batch) && r.total == |arcs|
            && Arcs(r) == Slice(arcs, start, batch)
            && arcs[..start] + Arcs(r) == arcs[..start + r.written]
            && r.written == (if start + batch < |arcs| then batch else |arcs| - start)
  {
    SliceExtends(arcs, start, batch);
    SliceOk(d, arcs, start, batch);
    EncodedReply(consumer, d, Slice(arcs, start, batch), Slicing(arcs, batch)(i, start));
  }

  /** `calls` is max(1, ceil(n / batch)), said without division. */
  predicate CallsFor(n: nat, batch: nat, calls: nat) {
    calls >= 1 && n <= calls * batch && (calls > 1 ==> (calls - 1) * batch < n)
  }

  /** The rest of the loop once the arcs before `start` are collected. */
  function Reassemble(consumer: Consumer, arcs: seq<Arc>, batch: nat, start: nat, visits: seq<Visit>,
                      expected: Option<Word>): Result
    requires |arcs| <= MAX_INT64 && start <= |arcs|
  {
    Collect(consumer, Slicing(arcs, batch), batch, arcs[..start], visits, expected)
  }

  /** One round over slices appends the next one. */
  lemma CollectOne(consumer: Consumer, d: UnitDomain, arcs: seq<Arc>, batch: nat, start: nat,
                   visits: seq<Visit>, expected: Option<Word>, r: Reply)
    requires AllOk(d, arcs) && |arcs| <= MAX_INT64 && 0 < batch && start <= |arcs|
    requires if expected.None? then start == 0 else expected.value == |arcs| && start < |arcs|
    requires r == Slicing(arcs, batch)(|visits|, start)
    ensures r.written == (if start + batch < |arcs| then batch else |arcs| - start)
    ensures Reassemble(consumer, arcs, batch, start, visits, expected)
            == Reassemble(consumer, arcs, batch, start + r.written, visits + [Visit(start, r)], Some(|arcs|))
  {
    SlicedReply(consumer, d, arcs, start, batch, |visits|);
  }

  lemma CollectEnd(consumer: Consumer, arcs: seq<Arc>, batch: nat, visits: seq<Visit>)
    requires |arcs| <= MAX_INT64
    ensures Reassemble(consumer, arcs, batch, |arcs|, visits, Some(|arcs|)) == Collected(arcs, visits)
  {
    assert arcs[..|arcs|] == arcs;
  }

  /** After `n` pages the loop stands at `start`: a page boundary, or the end reached in time. */
  predicate AtPage(total: nat, batch: nat, start: nat, n: nat) {
    if start < total then n * batch == start else if n == 0 then total == 0 else CallsFor(total, batch, n)
  }

  /** After one more page it stands at the next boundary, or at the end. */
  lemma NextBoundary(total: nat, batch: nat, start: nat, n: nat)
    requires 0 < batch && start <= total && AtPage(total, batch, start, n) && (start < total || n == 0)
    ensures AtPage(total, batch, if start + batch < total then start + batch else total, n + 1)
  {
    assert (n + 1) * batch == n * batch + batch;
  }

  /** From a page boundary on, the loop reads one full page a round. */
  lemma {:induction false} CollectSlices(consumer: Consumer, d: UnitDomain, arcs: seq<Arc>, batch: nat, start: nat,
                                         visits: seq<Visit>, expected: Option<Word>)
    requires AllOk(d, arcs) && |arcs| <= MAX_INT64 && 0 < batch && start <= |arcs|
    requires if expected.None? then start == 0 && visits == [] else expected.value == |arcs| && visits != []
    requires AtPage(|arcs|, batch, start, |visits|)
    ensures var r := Reassemble(consumer, arcs, batch, start, visits, expected);
            r.Collected? && r.arcs == arcs && CallsFor(|arcs|, batch, |r.visits|)
    decreases if expected.None? then 1 else 0, |arcs| - start
  {
    if expected.Some? && start == |arcs| {
      CollectEnd(consumer, arcs, batch, visits);
    } else {
      var r := Slicing(arcs, batch)(|visits|, start);
      CollectOne(consumer, d, arcs, batch, start, visits, expected, r);
      NextBoundary(|arcs|, batch, start, |visits|);
      CollectSlices(consumer, d, arcs, batch, start + r.written, visits + [Visit(start, r)], Some(|arcs|));
    }
  }

  /**
   Reassembling the slices gives back exactly the arcs, in order, whatever the page size, with
   one call for a state without arcs and no call too many otherwise.
   */
  lemma ReassemblyIsExact(consumer: Consumer, d: UnitDomain, arcs: seq<Arc>, batch: nat)
    requires AllOk(d, arcs) && |arcs| <= MAX_INT64 && 0 < batch
    ensures var r := Collect(consumer, Slicing(arcs, batch), batch, [], [], None);
            r.Collected? && r.arcs == arcs && CallsFor(|arcs|, batch, |r.visits|)
  {
    assert arcs[..0] == [];
    CollectSlices(consumer, d, arcs, batch, 0, [], None);
  }
}
