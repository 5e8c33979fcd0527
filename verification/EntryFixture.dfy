/**
 The one concrete entries cursor in the repository (bindings/raku/t/mock-resource.c), with its
 two fixed entries generalised to any list, driven by the JVM iterator.

 The cursor serves one entry a batch.  It answers `BATCH_IN_USE` to a cancel or close while a
 lease is open.
 */
module EntryFixture {
  import opened Interop
  import opened Keys
  import opened EntryBatch
  import opened EntryLog
  import opened EntryIterator


  datatype Fixture = Fixture(index: nat, generation: nat, batchActive: bool, open: bool)

  datatype Served = Served(fixture: Fixture, reply: Reply)

  const FRESH := Fixture(0, 0, false, true)

  /** Any suitably aligned address of the cursor's own storage. */
  const STORAGE: nat := 8

  function BatchOf(e: Entry, generation: nat): Batch {
    Batch(STORAGE, [DescriptorOf(e, 0, 0)],
          if e.key.units == [] then 0 else STORAGE, e.key.units,
          if e.value.None? then 0 else STORAGE, ValueUnits(e), generation, 0)
  }

  predicate Fits(c: Config, e: Entry) {
    |e.key.units| <= c.maxUnits && |ValueUnits(e)| <= c.maxValues
  }

  /** A reply; there is enough memory for it, and closing zeroes the handle. */
  function Says(f: Fixture, status: nat, batch: Batch): Served {
    Served(f, Reply(status, batch, None, f.open))
  }

  function Serve(c: Config, es: seq<Entry>, f: Fixture, call: Call): Served {
    match call
    case NextBatch =>
      if !f.open then Says(f, CLOSED, EMPTY)
      else if c.maxEntries == 0 then Says(f, INVALID_ARGUMENT, EMPTY)
      else if f.batchActive then Says(f, BATCH_IN_USE, EMPTY)
      else if f.index >= |es| then Says(f, END, EMPTY)
      else if !Fits(c, es[f.index]) then Says(f, LIMIT_EXCEEDED, EMPTY)
      else Says(Fixture(f.index + 1, f.generation + 1, true, true), OK, BatchOf(es[f.index], f.generation + 1))
    case ReleaseBatch(generation) =>
      if !f.open then Says(f, CLOSED, EMPTY)
      else if !f.batchActive || generation != f.generation then Says(f, INVALID_ARGUMENT, EMPTY)
      else Says(f.(batchActive := false), OK, EMPTY)
    case Cancel =>
      if !f.open then Says(f, CLOSED, EMPTY)
      else if f.batchActive then Says(f, BATCH_IN_USE, EMPTY)
      else Says(f.(index := |es|), OK, EMPTY)
    case CloseCursor =>
      if !f.open then Says(f, CLOSED, EMPTY)
      else if f.batchActive then Says(f, BATCH_IN_USE, EMPTY)
      else Says(f.(open := false), OK, EMPTY)
  }

  /** The cursor after a history of calls. */
  function Replay(c: Config, es: seq<Entry>, calls: seq<Call>): Fixture {
    if calls == [] then FRESH
    else Serve(c, es, Replay(c, es, calls[..|calls| - 1]), calls[|calls| - 1]).fixture
  }

  function Answer(c: Config, es: seq<Entry>, calls: seq<Call>): Reply {
    if calls == [] then Says(FRESH, INVALID_ARGUMENT, EMPTY).reply
    else Serve(c, es, Replay(c, es, calls[..|calls| - 1]), calls[|calls| - 1]).reply
  }

  /** The cursor as a provider. */
  function Serving(c: Config, es: seq<Entry>): Provider {
    calls => Answer(c, es, calls)
  }

  /** The cursor as the C code has it. */
  class EntriesCursor {
    const config: Config
    const entries: seq<Entry>
    var index: nat
    var generation: nat
    var batchActive: bool
    var open: bool

    function View(): Fixture
      reads this
    {
      Fixture(index, generation, batchActive, open)
    }

    constructor (config: Config, entries: seq<Entry>)
      ensures View() == FRESH && this.config == config && this.entries == entries
    {
      this.config, this.entries := config, entries;
      index, generation, batchActive, open := 0, 0, false, true;
    }

    method Next() returns (status: nat, batch: Batch)
      modifies this
      ensures Says(View(), status, batch) == Serve(config, entries, old(View()), NextBatch)
    {
      batch := EMPTY;
      if !open {
        return CLOSED, batch;
      }
      if config.maxEntries == 0 {
        return INVALID_ARGUMENT, batch;
      }
      if batchActive {
        return BATCH_IN_USE, batch;
      }
      if index >= |entries| {
        return END, batch;
      }
      var e := entries[index];
      if config.maxUnits < |e.key.units| || config.maxValues < |ValueUnits(e)| {
        return LIMIT_EXCEEDED, batch;
      }
      generation := generation + 1;
      batchActive := true;
      batch := BatchOf(e, generation);
      index := index + 1;
      status := OK;
    }

    method Release(generation: nat) returns (status: nat)
      modifies this
      ensures Says(View(), status, EMPTY) == Serve(config, entries, old(View()), ReleaseBatch(generation))
    {
      if !open {
        return CLOSED;
      }
      if !batchActive || generation != this.generation {
        return INVALID_ARGUMENT;
      }
      batchActive := false;
      status := OK;
    }

    method CancelRest() returns (status: nat)
      modifies this
      ensures Says(View(), status, EMPTY) == Serve(config, entries, old(View()), Cancel)
    {
      if !open {
        return CLOSED;
      }
      if batchActive {
        return BATCH_IN_USE;
      }
      index := |entries|;
      status := OK;
    }

    method CloseHandle() returns (status: nat)
      modifies this
      ensures Says(View(), status, EMPTY) == Serve(config, entries, old(View()), CloseCursor)
    {
      if !open {
        return CLOSED;
      }
      if batchActive {
        return BATCH_IN_USE;
      }
      open := false;
      status := OK;
    }
  }

  /** Making the calls of a history on a new cursor gives the replies of `Serving`. */
  method ServeAll(c: Config, es: seq<Entry>, calls: seq<Call>) returns (replies: seq<Reply>)
    ensures |replies| == |calls|
    ensures forall i :: 0 <= i < |calls| ==> replies[i] == Serving(c, es)(calls[..i + 1])
  {
    var cursor := new EntriesCursor(c, es);
    replies := [];
    for i := 0 to |calls|
      invariant fresh(cursor) && cursor.config == c && cursor.entries == es
      invariant cursor.View() == Replay(c, es, calls[..i])
      invariant |replies| == i && forall k :: 0 <= k < i ==> replies[k] == Serving(c, es)(calls[..k + 1])
    {
      ServeNext(c, es, calls[..i], calls[i]);
      assert calls[..i + 1] == calls[..i] + [calls[i]];
      var status, batch := INVALID_ARGUMENT, EMPTY;
      match calls[i] {
        case NextBatch => status, batch := cursor.Next();
        case ReleaseBatch(generation) => status := cursor.Release(generation);
        case Cancel => status := cursor.CancelRest();
        case CloseCursor => status := cursor.CloseHandle();
      }
      replies := replies + [Says(cursor.View(), status, batch).reply];
    }
  }

  // ---------------------------------------------------------------- driving it

  /** The iterator and the cursor agree on limits, domains, order and the advertised length. */
  predicate Suitable(c: Config, es: seq<Entry>) {
    && c.runtime.Jvm? && c.maxEntries > 0 && |es| <= MAX_INT64
    && (forall i :: 0 <= i < |es| ==> EntryOk(c, es[i]))
    && Ascending(KeysOf(es))
    && (c.exactLength.Some? ==> c.exactLength.value == |es|)
  }

  /** How many leading entries fit the limits. */
  function Fitting(c: Config, es: seq<Entry>): (n: nat)
    ensures n <= |es| && (n < |es| ==> !Fits(c, es[n])) && forall i :: 0 <= i < n ==> Fits(c, es[i])
  {
    if es == [] || !Fits(c, es[0]) then 0 else 1 + Fitting(c, es[1..])
  }

  /** Serving one more call. */
  lemma ServeNext(c: Config, es: seq<Entry>, calls: seq<Call>, call: Call)
    ensures Replay(c, es, calls + [call]) == Serve(c, es, Replay(c, es, calls), call).fixture
    ensures Serving(c, es)(calls + [call]) == Serve(c, es, Replay(c, es, calls), call).reply
  {
    var more := calls + [call];
    assert more[..|more| - 1] == calls && more[|more| - 1] == call;
  }

  /** No reply so far was `BATCH_IN_USE`. */
  ghost predicate NeverInUse(p: Provider, calls: seq<Call>) {
    forall i :: 0 < i <= |calls| ==> Status(p, calls[..i]) != BATCH_IN_USE
  }

  lemma NeverInUseAppend(p: Provider, calls: seq<Call>, call: Call)
    requires NeverInUse(p, calls) && Status(p, calls + [call]) != BATCH_IN_USE
    ensures NeverInUse(p, calls + [call])
  {
    var more := calls + [call];
    forall i | 0 < i <= |more| ensures Status(p, more[..i]) != BATCH_IN_USE {
      if i <= |calls| {
        assert more[..i] == calls[..i];
      } else {
        assert more[..i] == more;
      }
    }
  }

  /** Closing an open cursor without a lease works at the first attempt. */
  lemma CloseWorks(c: Config, es: seq<Entry>, s: Cursor, cancelFirst: bool)
    requires var f := Replay(c, es, s.calls); f.open && !f.batchActive
    requires !s.closed && NeverInUse(Serving(c, es), s.calls)
    ensures var r := CloseState(Serving(c, es), s, cancelFirst);
            && !r.failed && r.cursor == s.(calls := r.cursor.calls, closed := true)
            && !Replay(c, es, r.cursor.calls).open && NeverInUse(Serving(c, es), r.cursor.calls)
  {
    var p := Serving(c, es);
    var s1 := if cancelFirst then Asked(s, Cancel) else s;
    if cancelFirst {
      ServeNext(c, es, s.calls, Cancel);
      NeverInUseAppend(p, s.calls, Cancel);
    }
    ServeNext(c, es, s1.calls, CloseCursor);
    NeverInUseAppend(p, s1.calls, CloseCursor);
  }

  lemma OnePacks(e: Entry, generation: nat)
    ensures Packs(BatchOf(e, generation), [e])
  {
    assert [e][1..] == [];
    assert Units([e]) == e.key.units + Units([]) && Values([e]) == ValueUnits(e) + Values([]);
    assert Descriptors([e], 0, 0) == [DescriptorOf(e, 0, 0)] + Descriptors([], |e.key.units|, |ValueUnits(e)|);
  }

  /** An entry that fits respects all the limits of a batch of one. */
  lemma OneCounts(c: Config, e: Entry)
    requires c.maxEntries > 0 && Fits(c, e) && EntryOk(c, e)
    ensures CountsOk(c, 1, |e.key.units|, |ValueUnits(e)|)
  {
    var n := |e.key.units|;
    match c.unitDomain
    case Byte => assert n * UnitSize(Byte) == n;
    case UnicodeScalar => assert n * UnitSize(UnicodeScalar) == 4 * n;
    case U64 => assert n * UnitSize(U64) == 8 * n;
  }

  /** Entry `m` may follow the entries before it. */
  lemma OneContinues(es: seq<Entry>, m: nat)
    requires Ascending(KeysOf(es)) && m < |es|
    ensures Continues(LastKey(None, es[..m]), [es[m]])
  {
    if m > 0 {
      assert Precedes(KeysOf(es)[m - 1], KeysOf(es)[m]);
    }
  }

  lemma OneAdmissible(c: Config, es: seq<Entry>, m: nat)
    requires Suitable(c, es) && m < |es| && Fits(c, es[m])
    ensures Admissible(c, LastKey(None, es[..m]), m, [es[m]])
  {
    assert EntryOk(c, es[m]);
    OnePacks(es[m], 1);
    OneCounts(c, es[m]);
    OneContinues(es, m);
  }

  /** The reply with entry `m`. */
  function Offer(es: seq<Entry>, m: nat): Reply
    requires m < |es|
  {
    Reply(OK, BatchOf(es[m], m + 1), None, true)
  }

  /** A single served entry is accepted. */
  lemma EntryAccepted(c: Config, es: seq<Entry>, m: nat)
    requires Suitable(c, es) && m < |es| && Fits(c, es[m])
    ensures Copyable(c, Offer(es, m), LastKey(None, es[..m]), m)
    ensures Queue(c, Offer(es, m), LastKey(None, es[..m])) == [es[m]]
  {
    OnePacks(es[m], m + 1);
    OneAdmissible(c, es, m);
    UnpackAfterPack(c, BatchOf(es[m], m + 1), LastKey(None, es[..m]), m, [es[m]]);
  }

  /** Some `NextBatch` was answered with `LIMIT_EXCEEDED`. */
  ghost predicate LimitReported(p: Provider, calls: seq<Call>) {
    exists i :: 0 < i <= |calls| && calls[i - 1] == NextBatch && Status(p, calls[..i]) == LIMIT_EXCEEDED
  }

  /** The iterator and the cursor before a refill that asks for entry `m`. */
  ghost predicate Ready(c: Config, es: seq<Entry>, s: Cursor, m: nat) {
    && NeverInUse(Serving(c, es), s.calls) && Replay(c, es, s.calls) == Fixture(m, m, false, true)
    && s == Cursor(s.calls, [], LastKey(None, es[..if m <= |es| then m else 0]), m, false, false, false)
  }

  /** The iterator and the cursor after the last entry the client gets. */
  ghost predicate Over(c: Config, es: seq<Entry>, s: Cursor) {
    && NeverInUse(Serving(c, es), s.calls) && !Replay(c, es, s.calls).open
    && s.exhausted && s.closed && s.cleaned && s.buffered == []
  }

  lemma RefillEnd(c: Config, es: seq<Entry>, s: Cursor)
    requires Suitable(c, es) && Ready(c, es, s, |es|)
    ensures var r := Refill(c, Serving(c, es), s); !r.failed && Over(c, es, r.cursor)
  {
    var s1 := Asked(s, NextBatch);
    ServeNext(c, es, s.calls, NextBatch);
    NeverInUseAppend(Serving(c, es), s.calls, NextBatch);
    CloseWorks(c, es, s1.(exhausted := true), false);
  }

  lemma RefillLimit(c: Config, es: seq<Entry>, s: Cursor, m: nat)
    requires Suitable(c, es) && Ready(c, es, s, m) && m < |es| && !Fits(c, es[m])
    ensures var r := Refill(c, Serving(c, es), s);
            r.failed && Over(c, es, r.cursor) && LimitReported(Serving(c, es), r.cursor.calls)
  {
    var p, s1 := Serving(c, es), Asked(s, NextBatch);
    ServeNext(c, es, s.calls, NextBatch);
    NeverInUseAppend(p, s.calls, NextBatch);
    CloseWorks(c, es, s1, true);
    var after := CloseState(p, s1, true).cursor.calls;
    assert after == s1.calls + [Cancel] + [CloseCursor];
    assert after[..|s1.calls|] == s1.calls;
  }

  /** What an accepted entry does to the fields of the iterator. */
  lemma EntryCopied(c: Config, es: seq<Entry>, s: Cursor, m: nat)
    requires Suitable(c, es) && m < |es| && Fits(c, es[m])
    requires s.buffered == [] && s.previous == LastKey(None, es[..m]) && s.delivered == m
    ensures Copied(c, s, Offer(es, m)) == s.(buffered := [es[m]], previous := Some(es[m].key), delivered := m + 1)
  {
    EntryAccepted(c, es, m);
    assert es[..m + 1] == es[..m] + [es[m]];
    BatchFields(c, s, Offer(es, m), es[..m]);
  }

  lemma RefillEntry(c: Config, es: seq<Entry>, s: Cursor, m: nat)
    requires Suitable(c, es) && Ready(c, es, s, m) && m < |es| && Fits(c, es[m])
    ensures var r := Refill(c, Serving(c, es), s);
            && !r.failed && r.cursor.buffered == [es[m]]
            && Ready(c, es, r.cursor.(buffered := []), m + 1)
  {
    var p, s1 := Serving(c, es), Asked(s, NextBatch);
    ServeNext(c, es, s.calls, NextBatch);
    NeverInUseAppend(p, s.calls, NextBatch);
    EntryAccepted(c, es, m);
    EntryCopied(c, es, s1, m);
    ServeNext(c, es, s1.calls, ReleaseBatch(m + 1));
    NeverInUseAppend(p, s1.calls, ReleaseBatch(m + 1));
  }

  /** Between client calls the client has a fitting prefix and the cursor stands behind it. */
  ghost predicate Driven(c: Config, es: seq<Entry>, s: Session) {
    var k, n := s.cursor, Fitting(c, es);
    var m := |s.returned| + |k.buffered|;
    && m <= n && s.returned + k.buffered == es[..m]
    && (!k.exhausted ==> Ready(c, es, k.(buffered := []), m) && !s.failed && !s.stopped)
    && (k.exhausted ==> Over(c, es, k))
    && (k.exhausted && !s.stopped ==> m == n && (s.failed <==> n < |es|))
    && (s.failed ==> !s.stopped && LimitReported(Serving(c, es), k.calls))
  }

  /** What `hasNext` does when it has to ask for entry `m`. */
  ghost predicate Reached(c: Config, es: seq<Entry>, m: nat, r: Result) {
    var n := Fitting(c, es);
    && (m < n ==> !r.failed && r.cursor.buffered == [es[m]] && Ready(c, es, r.cursor.(buffered := []), m + 1))
    && (m >= n ==> Over(c, es, r.cursor) && (r.failed <==> n < |es|))
    && (r.failed ==> LimitReported(Serving(c, es), r.cursor.calls))
  }

  lemma HasNextReaches(c: Config, es: seq<Entry>, s: Cursor, m: nat)
    requires Suitable(c, es) && Ready(c, es, s, m) && m <= Fitting(c, es)
    ensures Reached(c, es, m, HasNextResult(c, Serving(c, es), s))
  {
    if m == |es| {
      RefillEnd(c, es, s);
    } else if !Fits(c, es[m]) {
      RefillLimit(c, es, s, m);
    } else {
      RefillEntry(c, es, s, m);
    }
  }

  lemma PrefixPlus(es: seq<Entry>, m: nat)
    requires m < |es|
    ensures es[..m] + [es[m]] == es[..m + 1]
  {
  }

  lemma EntryDriven(c: Config, es: seq<Entry>, s: Session, k: Cursor)
    requires Driven(c, es, s) && s.cursor.buffered == [] && !s.cursor.exhausted && |s.returned| < Fitting(c, es)
    requires k.buffered == [es[|s.returned|]] && Ready(c, es, k.(buffered := []), |s.returned| + 1)
    ensures Driven(c, es, s.(cursor := k))
  {
    assert s.returned + [] == s.returned;
    PrefixPlus(es, |s.returned|);
  }

  lemma OverDriven(c: Config, es: seq<Entry>, s: Session, r: Result)
    requires Driven(c, es, s) && s.cursor.buffered == [] && !s.cursor.exhausted && |s.returned| == Fitting(c, es)
    requires Over(c, es, r.cursor) && (r.failed <==> Fitting(c, es) < |es|)
    requires r.failed ==> LimitReported(Serving(c, es), r.cursor.calls)
    ensures Driven(c, es, s.(cursor := r.cursor, failed := s.failed || r.failed))
  {
    assert s.returned + [] == s.returned;
  }

  lemma ReachedDriven(c: Config, es: seq<Entry>, s: Session, r: Result)
    requires Driven(c, es, s) && s.cursor.buffered == [] && !s.cursor.exhausted
    requires Reached(c, es, |s.returned|, r)
    ensures Driven(c, es, s.(cursor := r.cursor, failed := s.failed || r.failed))
  {
    if |s.returned| < Fitting(c, es) {
      EntryDriven(c, es, s, r.cursor);
      assert s.(cursor := r.cursor, failed := s.failed || r.failed) == s.(cursor := r.cursor);
    } else {
      OverDriven(c, es, s, r);
    }
  }

  lemma HasNextDriven(c: Config, es: seq<Entry>, s: Session)
    requires Suitable(c, es) && Driven(c, es, s)
    ensures var r := HasNextResult(c, Serving(c, es), s.cursor);
            Driven(c, es, s.(cursor := r.cursor, failed := s.failed || r.failed))
    ensures s.cursor.buffered == [] && !s.cursor.exhausted ==>
            Reached(c, es, |s.returned|, HasNextResult(c, Serving(c, es), s.cursor))
  {
    if s.cursor.buffered == [] && !s.cursor.exhausted {
      assert s.cursor.(buffered := []) == s.cursor;
      HasNextReaches(c, es, s.cursor, |s.returned|);
      ReachedDriven(c, es, s, HasNextResult(c, Serving(c, es), s.cursor));
    }
  }

  lemma CloseDriven(c: Config, es: seq<Entry>, s: Session)
    requires Suitable(c, es) && Driven(c, es, s)
    ensures Driven(c, es, Do(c, Serving(c, es), s, Close))
  {
    if !s.cursor.exhausted {
      CloseWorks(c, es, Abandon(s.cursor), true);
      assert s.returned + [] == (s.returned + s.cursor.buffered)[..|s.returned|] == es[..|s.returned|];
    }
  }

  /** `next` takes the first buffered entry, if there is one. */
  lemma DeliverDriven(c: Config, es: seq<Entry>, s: Session, r: Result)
    requires Driven(c, es, s.(cursor := r.cursor, failed := s.failed || r.failed))
    requires r.failed ==> r.cursor.buffered == []
    ensures Driven(c, es, Deliver(s, r))
  {
    if r.cursor.buffered != [] {
      assert s.returned + r.cursor.buffered == (s.returned + [r.cursor.buffered[0]]) + r.cursor.buffered[1..];
    }
  }

  lemma NextDriven(c: Config, es: seq<Entry>, s: Session)
    requires Suitable(c, es) && Driven(c, es, s)
    ensures Driven(c, es, Do(c, Serving(c, es), s, Next))
  {
    HasNextDriven(c, es, s);
    DeliverDriven(c, es, s, HasNextResult(c, Serving(c, es), s.cursor));
  }

  /** As long as a fitting entry is left, `next` returns one; after that it ends. */
  lemma NextProgress(c: Config, es: seq<Entry>, s: Session)
    requires Suitable(c, es) && Driven(c, es, s) && !s.stopped
    ensures var after := Do(c, Serving(c, es), s, Next);
            && !after.stopped
            && |after.returned| == (if |s.returned| < Fitting(c, es) then |s.returned| + 1 else |s.returned|)
            && (|s.returned| == Fitting(c, es) ==> after.cursor.exhausted)
  {
    HasNextDriven(c, es, s);
  }

  lemma {:induction false} RunDriven(c: Config, es: seq<Entry>, ops: seq<Op>)
    requires Suitable(c, es)
    ensures Driven(c, es, Run(c, Serving(c, es), ops))
  {
    if ops != [] {
      var s, op := Run(c, Serving(c, es), ops[..|ops| - 1]), ops[|ops| - 1];
      RunDriven(c, es, ops[..|ops| - 1]);
      match op
      case HasNext => HasNextDriven(c, es, s);
      case Next => NextDriven(c, es, s);
      case Close => CloseDriven(c, es, s);
    }
  }

  // ---------------------------------------------------------------- theorems

  /**
   Whatever the client does, it gets a prefix of the entries that fit, `BATCH_IN_USE` is never
   answered, and an iterator that is at its end has closed the cursor.  Unless the client
   stopped it, it ends with all fitting entries, and fails exactly if one does not fit, because
   the cursor reported the limit.
   */
  lemma DeliversWhatFits(c: Config, es: seq<Entry>, ops: seq<Op>)
    requires Suitable(c, es)
    ensures var s, n := Run(c, Serving(c, es), ops), Fitting(c, es);
            && s.returned <= es[..n]
            && NeverInUse(Serving(c, es), s.cursor.calls)
            && (s.cursor.exhausted <==> s.cursor.closed)
            && (s.cursor.exhausted && !s.stopped ==> s.returned == es[..n] && (s.failed <==> n < |es|))
            && (s.failed ==> LimitReported(Serving(c, es), s.cursor.calls))
  {
    RunDriven(c, es, ops);
    var s := Run(c, Serving(c, es), ops);
    assert s.returned == es[..|s.returned|] by {
      assert s.returned == (s.returned + s.cursor.buffered)[..|s.returned|];
    }
  }

  function Nexts(k: nat): seq<Op> {
    if k == 0 then [] else Nexts(k - 1) + [Next]
  }

  lemma RunProgress(c: Config, es: seq<Entry>, ops: seq<Op>)
    requires Suitable(c, es) && !Run(c, Serving(c, es), ops).stopped
    ensures var s, after := Run(c, Serving(c, es), ops), Run(c, Serving(c, es), ops + [Next]);
            && !after.stopped
            && |after.returned| == (if |s.returned| < Fitting(c, es) then |s.returned| + 1 else |s.returned|)
            && (|s.returned| == Fitting(c, es) ==> after.cursor.exhausted)
  {
    assert (ops + [Next])[..|ops|] == ops;
    RunDriven(c, es, ops);
    NextProgress(c, es, Run(c, Serving(c, es), ops));
  }

  /** After `k` calls of `next`; `s` is the session. */
  lemma {:induction false} NextsDriven(c: Config, es: seq<Entry>, k: nat, s: Session)
    requires Suitable(c, es) && s == Run(c, Serving(c, es), Nexts(k))
    ensures !s.stopped && |s.returned| == if k < Fitting(c, es) then k else Fitting(c, es)
    ensures k > Fitting(c, es) ==> s.cursor.exhausted
  {
    if k > 0 {
      NextsDriven(c, es, k - 1, Run(c, Serving(c, es), Nexts(k - 1)));
      RunProgress(c, es, Nexts(k - 1));
    }
  }

  /** Calling `next` until the end delivers every entry before the first that does not fit. */
  lemma Drain(c: Config, es: seq<Entry>, k: nat)
    requires Suitable(c, es)
    ensures var s, n := Run(c, Serving(c, es), Nexts(k)), Fitting(c, es);
            && s.returned == es[..if k < n then k else n]
            && (k > n ==> s.cursor.closed && (s.failed <==> n < |es|))
  {
    NextsDriven(c, es, k, Run(c, Serving(c, es), Nexts(k)));
    DeliversWhatFits(c, es, Nexts(k));
  }

  /** The cursor is closed by exactly one successful call. */
  lemma ClosedOnce(c: Config, es: seq<Entry>, ops: seq<Op>, i: nat)
    requires Suitable(c, es)
    requires var s := Run(c, Serving(c, es), ops).cursor;
             s.closed && 0 < i <= |s.calls|
    ensures var s := Run(c, Serving(c, es), ops).cursor;
            Ended(Serving(c, es), s.calls[..i]) <==> i == |s.calls|
  {
    NativeProtocol(c, Serving(c, es), ops);
    var p, s := Serving(c, es), Run(c, Serving(c, es), ops).cursor;
    assert s.calls[..|s.calls|] == s.calls;
    if i < |s.calls| {
      assert Allowed(c, p, true, s.calls[..i], s.calls[i]);
    }
  }

  /**
   A snapshot of the fixture is returned exactly if every entry fits the limits, and the advertised
   length an array; it is then the list of entries itself.
   */
  method Snapshot(c: Config, es: seq<Entry>) returns (ok: bool, ordered: seq<Entry>)
    requires Suitable(c, es)
    ensures ok <==>
              && (forall i :: 0 <= i < |es| ==>
                    |es[i].key.units| <= c.maxUnits && (es[i].value.Some? ==> c.maxValues >= 1))
              && (c.exactLength.Some? ==> |es| <= 0x7fff_ffff)
    ensures ok ==> ordered == es
  {
    assert forall i :: 0 <= i < |es| ==>
             (Fits(c, es[i]) <==> |es[i].key.units| <= c.maxUnits && (es[i].value.Some? ==> c.maxValues >= 1));
    var calls;
    ghost var ops;
    ok, ordered, calls, ops := Materialize(c, Serving(c, es));
    if c.exactLength.None? || c.exactLength.value <= 0x7fff_ffff {
      DeliversWhatFits(c, es, ops);
    }
  }
}
