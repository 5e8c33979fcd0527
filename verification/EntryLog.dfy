/**
 The native side of an entries cursor, as both consumers see it: a provider that answers each
 call depending on the whole history of calls, however badly it behaves, and the reference
 meaning of such a history, which is the list of entries in its accepted batches.
 */
module EntryLog {
  import opened Interop
  import opened Keys
  import opened EntryBatch

  datatype Call = NextBatch | ReleaseBatch(generation: nat) | Cancel | CloseCursor

  /**
   The status; the batch view as the call left it, which only `NextBatch` writes; how many keys
   of that batch the consumer can allocate before memory runs out, `None` for enough; and
   whether the call left a valid vtable in the cursor handle, which the provider may overwrite.
   */
  datatype Reply = Reply(status: nat, batch: Batch, room: Option<nat>, intact: bool)

  /** An untrusted environment: any answer to any history of calls, the newest call last. */
  type Provider = seq<Call> -> Reply

  function Status(p: Provider, calls: seq<Call>): nat {
    p(calls).status
  }

  predicate EndsWith(calls: seq<Call>, call: Call) {
    calls != [] && calls[|calls| - 1] == call
  }

  /** The newest call leased a batch. */
  predicate Leased(p: Provider, calls: seq<Call>) {
    EndsWith(calls, NextBatch) && Status(p, calls) == OK
  }

  /** The newest call closed the cursor. */
  predicate Ended(p: Provider, calls: seq<Call>) {
    EndsWith(calls, CloseCursor) && Status(p, calls) == OK
  }

  /** The handle is intact when it is opened and as the newest call left it. */
  predicate Intact(p: Provider, calls: seq<Call>) {
    calls == [] || p(calls).intact
  }

  // ---------------------------------------------------------------- copying a leased batch

  /** Memory runs out while the batch is copied. */
  predicate Struck(c: Config, r: Reply, previous: Option<Key>) {
    HeaderOk(c, r.batch) && OutOfMemory(r.room, |r.batch.descriptors|, ScanBatch(c, r.batch, previous))
  }

  /** The entries that are queued when the copy stops. */
  function Queue(c: Config, r: Reply, previous: Option<Key>): seq<Entry> {
    var scan := ScanBatch(c, r.batch, previous);
    if Struck(c, r, previous) then scan.entries[..r.room.value] else scan.entries
  }

  /** The copy goes through. */
  predicate Copyable(c: Config, r: Reply, previous: Option<Key>, delivered: nat) {
    !Struck(c, r, previous) && CopyBatch(c, r.batch, previous, delivered).ok
  }

  /** The running total after the copy, which is updated once all descriptors are accepted. */
  function Delivered(c: Config, r: Reply, previous: Option<Key>, delivered: nat): nat {
    if !Struck(c, r, previous) && ScanBatch(c, r.batch, previous).ok
       && delivered + |r.batch.descriptors| <= WordMax(c.runtime)
    then delivered + |r.batch.descriptors| else delivered
  }

  /** `copyBatch`, for both consumers: what is queued, and whether and how it failed. */
  method CopyReply(c: Config, r: Reply, previous: Option<Key>, delivered: nat)
    returns (queued: seq<Entry>, last: Option<Key>, total: nat, ok: bool, struck: bool)
    ensures queued == Queue(c, r, previous) && last == LastKey(previous, queued)
    ensures total == Delivered(c, r, previous, delivered)
    ensures ok == Copyable(c, r, previous, delivered) && struck == Struck(c, r, previous)
  {
    queued, last, total, ok, struck := [], previous, delivered, false, false;
    if !HeaderOk(c, r.batch) {
      return;
    }
    queued, last, ok, struck := CopyEntries(c, r.batch, previous, r.room);
    if !ok || delivered + |r.batch.descriptors| > WordMax(c.runtime) {
      return queued, last, delivered, false, struck;
    }
    total := delivered + |r.batch.descriptors|;
    ok := c.exactLength.None? || total <= c.exactLength.value;
  }

  /**
   The packing of a list within the contract is copied as a whole if there is memory for all of it;
   otherwise exactly the entries there was memory for are queued, and the copy ends in an error.
   */
  lemma PackedReply(c: Config, r: Reply, previous: Option<Key>, delivered: nat, es: seq<Entry>)
    requires Packs(r.batch, es) && InContract(c, r.batch, previous, delivered, es)
    ensures var enough := r.room.None? || r.room.value >= |es|;
            && Copyable(c, r, previous, delivered) == enough && Struck(c, r, previous) == !enough
            && Queue(c, r, previous) == (if enough then es else es[..r.room.value])
            && Delivered(c, r, previous, delivered) == (if enough then delivered + |es| else delivered)
  {
    PackedAcceptedIff(c, r.batch, previous, delivered, es);
    DescriptorCount(es, 0, 0);
  }

  // ---------------------------------------------------------------- what a history delivered

  /** The entries of all batches that were copied and released successfully. */
  function Accepted(c: Config, p: Provider, calls: seq<Call>): seq<Entry>
    decreases |calls|
  {
    if calls == [] then []
    else
      var before, last := calls[..|calls| - 1], calls[|calls| - 1];
      var got := Accepted(c, p, before);
      if last.ReleaseBatch? && Leased(p, before) && Status(p, calls) == OK
         && Copyable(c, p(before), LastKey(None, got), |got|)
      then got + Queue(c, p(before), LastKey(None, got))
      else got
  }

  lemma AcceptedOther(c: Config, p: Provider, calls: seq<Call>, call: Call)
    requires !call.ReleaseBatch?
    ensures Accepted(c, p, calls + [call]) == Accepted(c, p, calls)
  {
    assert (calls + [call])[..|calls|] == calls;
  }

  lemma AcceptedRelease(c: Config, p: Provider, calls: seq<Call>, generation: nat, got: seq<Entry>)
    requires Leased(p, calls) && got == Accepted(c, p, calls)
    ensures var more := calls + [ReleaseBatch(generation)];
            Accepted(c, p, more)
            == if Copyable(c, p(calls), LastKey(None, got), |got|) && Status(p, more) == OK
               then got + Queue(c, p(calls), LastKey(None, got)) else got
  {
    var more := calls + [ReleaseBatch(generation)];
    assert more[..|more| - 1] == calls;
  }

  lemma AscendingConcat(a: seq<Entry>, b: seq<Entry>)
    requires Ascending(KeysOf(a)) && Continues(LastKey(None, a), b)
    ensures Ascending(KeysOf(a + b))
  {
    var keys := KeysOf(a + b);
    forall i | 0 < i < |keys| ensures Precedes(keys[i - 1], keys[i]) {
      if i < |a| {
        assert Precedes(KeysOf(a)[i - 1], KeysOf(a)[i]);
      } else if i > |a| {
        assert Precedes(KeysOf(b)[i - |a| - 1], KeysOf(b)[i - |a|]);
      }
    }
  }

  lemma AscendingPrefix(es: seq<Entry>, n: nat)
    requires Ascending(KeysOf(es)) && n <= |es|
    ensures Ascending(KeysOf(es[..n]))
  {
    var keys := KeysOf(es[..n]);
    forall i | 0 < i < |keys| ensures Precedes(keys[i - 1], keys[i]) {
      assert Precedes(KeysOf(es)[i - 1], KeysOf(es)[i]);
    }
  }

  /** What is queued continues the keys before it, even if the copy fails later. */
  lemma QueueContinues(c: Config, r: Reply, previous: Option<Key>)
    ensures Continues(previous, Queue(c, r, previous))
  {
    if HeaderOk(c, r.batch) {
      var scan := ScanBatch(c, r.batch, previous);
      ScanAdmissible(c, r.batch.descriptors, r.batch.units, r.batch.values, 0, 0, previous, scan);
      AscendingPrefix(scan.entries, |Queue(c, r, previous)|);
    }
  }

  /** A batch that is copied continues what was delivered before. */
  lemma BatchContinues(c: Config, r: Reply, got: seq<Entry>)
    requires Copyable(c, r, LastKey(None, got), |got|)
    ensures var es := Queue(c, r, LastKey(None, got));
            && es != [] && |es| == |r.batch.descriptors| && TotalOk(c, |got + es|)
            && LastKey(LastKey(None, got), es) == LastKey(None, got + es)
            && Delivered(c, r, LastKey(None, got), |got|) == |got + es|
  {
    PackAfterUnpack(c, r.batch, LastKey(None, got), |got|);
    DescriptorCount(Queue(c, r, LastKey(None, got)), 0, 0);
  }

  /** Across batch boundaries the keys ascend strictly and the advertised length is respected. */
  lemma {:induction false} AcceptedAscending(c: Config, p: Provider, calls: seq<Call>)
    ensures Ascending(KeysOf(Accepted(c, p, calls)))
    ensures Accepted(c, p, calls) != [] ==> TotalOk(c, |Accepted(c, p, calls)|)
    decreases |calls|
  {
    if calls != [] {
      var before := calls[..|calls| - 1];
      var got := Accepted(c, p, before);
      AcceptedAscending(c, p, before);
      QueueContinues(c, p(before), LastKey(None, got));
      AscendingConcat(got, Queue(c, p(before), LastKey(None, got)));
      if Copyable(c, p(before), LastKey(None, got), |got|) {
        BatchContinues(c, p(before), got);
      }
    }
  }

  // ---------------------------------------------------------------- the protocol of native calls

  /**
   The copy of the batch just leased ends in an `Error` that the refill does not catch.
   `escaping` is true of the JVM, whose `OutOfMemoryError` is no `RuntimeException`; .NET
   catches every exception.
   */
  predicate Escapes(c: Config, p: Provider, escaping: bool, calls: seq<Call>) {
    escaping && Leased(p, calls) && Struck(c, p(calls), LastKey(None, Accepted(c, p, calls)))
  }

  /**
   A lease is given back by the very next call, with its own generation, unless an error
   escapes, when the next call cancels; nothing else is ever released; and the cursor is not
   used after it was closed.
   */
  predicate Allowed(c: Config, p: Provider, escaping: bool, calls: seq<Call>, call: Call) {
    && (call.ReleaseBatch? <==> Leased(p, calls) && !Escapes(c, p, escaping, calls))
    && (call.ReleaseBatch? ==> call.generation == p(calls).batch.generation)
    && (Escapes(c, p, escaping, calls) ==> call.Cancel?)
    && !Ended(p, calls)
  }

  predicate Disciplined(c: Config, p: Provider, escaping: bool, calls: seq<Call>) {
    forall i :: 0 <= i < |calls| ==> Allowed(c, p, escaping, calls[..i], calls[i])
  }

  lemma DisciplinedAppend(c: Config, p: Provider, escaping: bool, calls: seq<Call>, call: Call)
    requires Disciplined(c, p, escaping, calls) && Allowed(c, p, escaping, calls, call)
    ensures Disciplined(c, p, escaping, calls + [call])
  {
    var more := calls + [call];
    assert more[..|calls|] == calls;
    forall i | 0 <= i < |more| ensures Allowed(c, p, escaping, more[..i], more[i]) {
      assert i < |calls| ==> more[..i] == calls[..i];
    }
  }

  /** Every lease was settled by the next call exactly if no error escaped from a copy. */
  lemma SettledIffNothingEscapes(c: Config, p: Provider, calls: seq<Call>)
    requires Disciplined(c, p, true, calls) && !Leased(p, calls)
    ensures Disciplined(c, p, false, calls) <==> forall i :: 0 <= i <= |calls| ==> !Escapes(c, p, true, calls[..i])
  {
    if i :| 0 <= i <= |calls| && Escapes(c, p, true, calls[..i]) {
      assert calls[..|calls|] == calls;
      assert Allowed(c, p, true, calls[..i], calls[i]);
      assert !Allowed(c, p, false, calls[..i], calls[i]);
    } else {
      forall i | 0 <= i < |calls| ensures Allowed(c, p, false, calls[..i], calls[i]) {
        assert Allowed(c, p, true, calls[..i], calls[i]);
      }
    }
  }

  /** The history is disciplined, no lease is open, it is closed as said, and it delivered `got`. */
  ghost predicate Consistent(c: Config, p: Provider, escaping: bool, calls: seq<Call>, closed: bool, got: seq<Entry>) {
    && Disciplined(c, p, escaping, calls) && !Leased(p, calls)
    && (closed <==> Ended(p, calls))
    && Accepted(c, p, calls) == got
  }

  /** The same, but an error has just escaped from the copy of a leased batch. */
  ghost predicate Abandoned(c: Config, p: Provider, escaping: bool, calls: seq<Call>, closed: bool, got: seq<Entry>) {
    && Disciplined(c, p, escaping, calls) && Escapes(c, p, escaping, calls)
    && !closed && Accepted(c, p, calls) == got
  }

  /** Cancelling or closing an open cursor delivers nothing. */
  lemma ConsistentAppend(c: Config, p: Provider, escaping: bool, calls: seq<Call>, call: Call, got: seq<Entry>)
    requires Consistent(c, p, escaping, calls, false, got) && (call.Cancel? || call.CloseCursor?)
    ensures Consistent(c, p, escaping, calls + [call], call.CloseCursor? && Status(p, calls + [call]) == OK, got)
  {
    DisciplinedAppend(c, p, escaping, calls, call);
    AcceptedOther(c, p, calls, call);
  }

  /** Nor does cancelling a cursor whose lease was abandoned. */
  lemma AbandonedCancel(c: Config, p: Provider, escaping: bool, calls: seq<Call>, got: seq<Entry>)
    requires Abandoned(c, p, escaping, calls, false, got)
    ensures Consistent(c, p, escaping, calls + [Cancel], false, got)
  {
    DisciplinedAppend(c, p, escaping, calls, Cancel);
    AcceptedOther(c, p, calls, Cancel);
  }

  /** The release that follows a lease settles it, whatever its status. */
  lemma LeaseSettled(c: Config, p: Provider, escaping: bool, calls: seq<Call>)
    requires Leased(p, calls) && !Escapes(c, p, escaping, calls) && Disciplined(c, p, escaping, calls)
    ensures var more := calls + [ReleaseBatch(p(calls).batch.generation)];
            Consistent(c, p, escaping, more, false, Accepted(c, p, more))
  {
    DisciplinedAppend(c, p, escaping, calls, ReleaseBatch(p(calls).batch.generation));
  }

  // ---------------------------------------------------------------- faults of a provider

  /**
   A reply to `NextBatch` that a consumer can go on from: a batch it can copy, or the end with the
   empty batch and the advertised length.  `checked` is true of .NET, which looks at the handle.
   */
  ghost predicate GoodReply(c: Config, checked: bool, r: Reply, got: seq<Entry>) {
    if r.status == END then
      r.batch == EMPTY && (c.exactLength.Some? ==> |got| == c.exactLength.value) && (checked ==> r.intact)
    else r.status == OK && Copyable(c, r, LastKey(None, got), |got|)
  }

  /**
   Call `i` of the history shows a fault of the provider, or of the memory: it asks for a batch, and
   the reply is not good, or the release or close that follows is refused.
   */
  ghost predicate Fault(c: Config, p: Provider, checked: bool, calls: seq<Call>, i: nat)
    requires i < |calls|
  {
    && calls[i].NextBatch?
    && (!GoodReply(c, checked, p(calls[..i + 1]), Accepted(c, p, calls[..i]))
        || (i + 1 < |calls| && Status(p, calls[..i + 2]) != OK))
  }

  ghost predicate Faultless(c: Config, p: Provider, checked: bool, calls: seq<Call>) {
    forall i :: 0 <= i < |calls| ==> !Fault(c, p, checked, calls, i)
  }

  lemma FaultPersists(c: Config, p: Provider, checked: bool, calls: seq<Call>, more: seq<Call>)
    requires calls <= more && !Faultless(c, p, checked, calls)
    ensures !Faultless(c, p, checked, more)
  {
    var i :| 0 <= i < |calls| && Fault(c, p, checked, calls, i);
    assert more[..i] == calls[..i] && more[..i + 1] == calls[..i + 1];
    assert i + 1 < |calls| ==> more[..i + 2] == calls[..i + 2];
    assert Fault(c, p, checked, more, i);
  }

  /** A history that does not end with `NextBatch` has no fault that more calls could reveal. */
  lemma FaultlessExtend(c: Config, p: Provider, checked: bool, calls: seq<Call>, more: seq<Call>, i: nat)
    requires calls <= more && Faultless(c, p, checked, calls) && !EndsWith(calls, NextBatch) && i < |calls|
    ensures !Fault(c, p, checked, more, i)
  {
    assert !Fault(c, p, checked, calls, i);
    assert more[..i] == calls[..i] && more[..i + 1] == calls[..i + 1];
    assert i + 1 < |calls| ==> more[..i + 2] == calls[..i + 2];
  }

  lemma TwoMore(calls: seq<Call>, first: Call, second: Call)
    ensures var more := calls + [first] + [second];
            && calls <= more && more[|calls|] == first && more[|calls| + 1] == second
            && more[..|calls|] == calls && more[..|calls| + 1] == calls + [first] && more[..|calls| + 2] == more
  {
  }

  /** Two calls, of which the first asked for a batch and showed no fault. */
  lemma FaultlessPair(c: Config, p: Provider, checked: bool, calls: seq<Call>, call: Call)
    requires Faultless(c, p, checked, calls) && !EndsWith(calls, NextBatch) && !call.NextBatch?
    requires GoodReply(c, checked, p(calls + [NextBatch]), Accepted(c, p, calls))
    requires Status(p, calls + [NextBatch] + [call]) == OK
    ensures var more := calls + [NextBatch] + [call];
            Faultless(c, p, checked, more) && !EndsWith(more, NextBatch)
  {
    var more := calls + [NextBatch] + [call];
    TwoMore(calls, NextBatch, call);
    forall i | 0 <= i < |more| ensures !Fault(c, p, checked, more, i) {
      if i < |calls| {
        FaultlessExtend(c, p, checked, calls, more, i);
      }
    }
  }

  /** The newest `NextBatch` shows a fault, seen from any continuation of the history. */
  lemma FaultAt(c: Config, p: Provider, checked: bool, calls: seq<Call>, more: seq<Call>)
    requires calls + [NextBatch] <= more
    requires || !GoodReply(c, checked, p(calls + [NextBatch]), Accepted(c, p, calls))
             || (|more| > |calls| + 1 && Status(p, more[..|calls| + 2]) != OK)
    ensures !Faultless(c, p, checked, more)
  {
    assert more[..|calls|] == calls && more[..|calls| + 1] == calls + [NextBatch];
    assert more[|calls|] == (calls + [NextBatch])[|calls|];
    assert Fault(c, p, checked, more, |calls|);
  }
}
