/**
 A provider that serves a list of entries as the ABI promises, in batches of any sizes, driven by
 the JVM iterator: the snapshot is the list.
 */
module EntryDelivery {
  import opened Interop
  import opened Keys
  import opened EntryBatch
  import opened EntryLog
  import opened EntryIterator

  /** Aligned for every domain; null for an empty arena. */
  function Address(count: nat): nat {
    if count == 0 then 0 else 8
  }

  /** The canonical packing of a batch. */
  function Pack(es: seq<Entry>, generation: nat): Batch {
    Batch(Address(|es|), Descriptors(es, 0, 0), Address(|Units(es)|), Units(es),
          Address(|Values(es)|), Values(es), generation, 0)
  }

  function Asks(calls: seq<Call>): nat {
    if calls == [] then 0
    else Asks(calls[..|calls| - 1]) + if calls[|calls| - 1].NextBatch? then 1 else 0
  }

  /** Answers every call with `OK`, serves one batch for each `NextBatch`, and then the end. */
  function Packed(batches: seq<seq<Entry>>): Provider {
    (calls: seq<Call>) =>
      if !EndsWith(calls, NextBatch) then Reply(OK, EMPTY, None, true)
      else
        var k := Asks(calls);
        if 0 < k <= |batches| then Reply(OK, Pack(batches[k - 1], k), None, true)
        else Reply(END, EMPTY, None, true)
  }

  function Flat(batches: seq<seq<Entry>>): seq<Entry> {
    if batches == [] then [] else Flat(batches[..|batches| - 1]) + batches[|batches| - 1]
  }

  /** Each batch is within the contract after the ones before, and the advertised length is right. */
  ghost predicate Servable(c: Config, batches: seq<seq<Entry>>) {
    && (forall k :: 0 <= k < |batches| ==>
          InContract(c, Pack(batches[k], k + 1), LastKey(None, Flat(batches[..k])), |Flat(batches[..k])|, batches[k]))
    && (c.exactLength.Some? ==> |Flat(batches)| == c.exactLength.value)
  }

  lemma FlatOne(batches: seq<seq<Entry>>, k: nat)
    requires k < |batches|
    ensures Flat(batches[..k + 1]) == Flat(batches[..k]) + batches[k]
  {
    assert batches[..k + 1][..k] == batches[..k];
  }

  /** The reply to the request for batch `k` is copied as that batch. */
  lemma ReplyCopied(c: Config, batches: seq<seq<Entry>>, calls: seq<Call>, k: nat)
    requires Servable(c, batches) && k < |batches| && EndsWith(calls, NextBatch) && Asks(calls) == k + 1
    ensures var r, got := Packed(batches)(calls), Flat(batches[..k]);
            && r.status == OK && Copyable(c, r, LastKey(None, got), |got|)
            && Queue(c, r, LastKey(None, got)) == batches[k]
  {
    var es, got := batches[k], Flat(batches[..k]);
    var b := Pack(es, k + 1);
    assert Packs(b, es);
    PackedAcceptedIff(c, b, LastKey(None, got), |got|, es);
  }

  /** How many batches a history has delivered. */
  function Served(batches: seq<seq<Entry>>, calls: seq<Call>): nat {
    var k := Asks(calls);
    if k > |batches| then |batches| else if k > 0 && EndsWith(calls, NextBatch) then k - 1 else k
  }

  lemma NextCall(c: Config, p: Provider, calls: seq<Call>, n: nat)
    requires Disciplined(c, p, true, calls) && n < |calls|
    ensures Allowed(c, p, true, calls[..n], calls[n]) && calls[..n + 1] == calls[..n] + [calls[n]]
  {
  }

  lemma AsksMore(calls: seq<Call>, call: Call)
    ensures Asks(calls + [call]) == Asks(calls) + if call.NextBatch? then 1 else 0
    ensures EndsWith(calls + [call], NextBatch) <==> call.NextBatch?
  {
    assert (calls + [call])[..|calls|] == calls;
  }

  /** The history has delivered the batches it should have. */
  ghost predicate InStep(c: Config, batches: seq<seq<Entry>>, calls: seq<Call>) {
    Accepted(c, Packed(batches), calls) == Flat(batches[..Served(batches, calls)])
  }

  lemma NothingYet(c: Config, batches: seq<seq<Entry>>)
    ensures InStep(c, batches, [])
  {
  }

  /** The release of a leased batch delivers it. */
  lemma ReleaseDelivers(c: Config, batches: seq<seq<Entry>>, calls: seq<Call>, generation: nat)
    requires Servable(c, batches) && Leased(Packed(batches), calls)
    requires InStep(c, batches, calls)
    ensures InStep(c, batches, calls + [ReleaseBatch(generation)])
  {
    var p, k := Packed(batches), Asks(calls) - 1;
    AsksMore(calls, ReleaseBatch(generation));
    ReplyCopied(c, batches, calls, k);
    FlatOne(batches, k);
    AcceptedRelease(c, p, calls, generation, Flat(batches[..k]));
  }

  /** Any other call delivers nothing. */
  lemma OtherDelivers(c: Config, batches: seq<seq<Entry>>, calls: seq<Call>, call: Call)
    requires !call.ReleaseBatch? && !Leased(Packed(batches), calls)
    requires InStep(c, batches, calls)
    ensures InStep(c, batches, calls + [call])
  {
    AsksMore(calls, call);
    AcceptedOther(c, Packed(batches), calls, call);
  }

  /** There is memory for every batch, so no error escapes. */
  lemma NothingEscapes(c: Config, batches: seq<seq<Entry>>, calls: seq<Call>)
    ensures !Escapes(c, Packed(batches), true, calls)
  {
  }

  lemma CallDelivers(c: Config, batches: seq<seq<Entry>>, calls: seq<Call>, call: Call, more: seq<Call>)
    requires Servable(c, batches) && Allowed(c, Packed(batches), true, calls, call) && more == calls + [call]
    requires InStep(c, batches, calls)
    ensures InStep(c, batches, more)
  {
    NothingEscapes(c, batches, calls);
    if call.ReleaseBatch? {
      ReleaseDelivers(c, batches, calls, call.generation);
    } else {
      OtherDelivers(c, batches, calls, call);
    }
  }

  lemma {:induction false} DeliveredUpTo(c: Config, batches: seq<seq<Entry>>, calls: seq<Call>, n: nat)
    requires Servable(c, batches) && Disciplined(c, Packed(batches), true, calls) && n <= |calls|
    ensures InStep(c, batches, calls[..n])
  {
    if n == 0 {
      NothingYet(c, batches);
    } else {
      DeliveredUpTo(c, batches, calls, n - 1);
      NextCall(c, Packed(batches), calls, n - 1);
      CallDelivers(c, batches, calls[..n - 1], calls[n - 1], calls[..n]);
    }
  }

  /** A consumer that settles its leases has accepted exactly the batches delivered, in order. */
  lemma DeliveredSoFar(c: Config, batches: seq<seq<Entry>>, calls: seq<Call>)
    requires Servable(c, batches) && Disciplined(c, Packed(batches), true, calls)
    ensures InStep(c, batches, calls)
  {
    DeliveredUpTo(c, batches, calls, |calls|);
    assert calls[..|calls|] == calls;
  }

  /** The next request is answered with the next batch, or with the end after the last one. */
  lemma NextReplyGood(c: Config, batches: seq<seq<Entry>>, calls: seq<Call>)
    requires Servable(c, batches) && Disciplined(c, Packed(batches), true, calls) && !Leased(Packed(batches), calls)
    ensures GoodReply(c, false, Packed(batches)(calls + [NextBatch]), Accepted(c, Packed(batches), calls))
  {
    var asked := calls + [NextBatch];
    AsksMore(calls, NextBatch);
    DeliveredSoFar(c, batches, calls);
    assert batches[..|batches|] == batches;
    if Asks(calls) < |batches| {
      ReplyCopied(c, batches, asked, Asks(calls));
    }
  }

  lemma RefillSucceeds(c: Config, batches: seq<seq<Entry>>, s: Cursor, got: seq<Entry>)
    requires Servable(c, batches) && AtEnd(c, Packed(batches), s, got)
    ensures !Refill(c, Packed(batches), s).failed
  {
    var p, s1 := Packed(batches), Asked(s, NextBatch);
    NextReplyGood(c, batches, s.calls);
    if p(s1.calls).status == END {
      FinishCalls(c, p, s1, p(s1.calls).batch);
    } else {
      TakeCalls(c, p, s1, p(s1.calls));
    }
  }

  /** No call of any client fails. */
  lemma {:induction false} NeverFails(c: Config, batches: seq<seq<Entry>>, ops: seq<Op>)
    requires Servable(c, batches)
    ensures !Run(c, Packed(batches), ops).failed
  {
    if ops != [] {
      var s := Run(c, Packed(batches), ops[..|ops| - 1]);
      NeverFails(c, batches, ops[..|ops| - 1]);
      RunKeepsInv(c, Packed(batches), ops[..|ops| - 1]);
      if s.cursor.buffered == [] && !s.cursor.exhausted {
        RefillSucceeds(c, batches, s.cursor, s.returned);
      }
    }
  }

  /** At the end every batch has been delivered. */
  lemma EndDeliversAll(c: Config, batches: seq<seq<Entry>>, ops: seq<Op>)
    requires Servable(c, batches)
    requires var s := Run(c, Packed(batches), ops); s.cursor.exhausted && !s.stopped
    ensures Run(c, Packed(batches), ops).returned == Flat(batches)
  {
    var p, s := Packed(batches), Run(c, Packed(batches), ops);
    NeverFails(c, batches, ops);
    RunKeepsInv(c, p, ops);
    EndIsReported(c, p, ops);
    var asked := s.cursor.calls[..|s.cursor.calls| - 1];
    assert Asks(asked) > |batches|;
    DeliveredSoFar(c, batches, s.cursor.calls);
    assert batches[..|batches|] == batches && s.returned + [] == s.returned;
  }

  /**
   Any list of entries that is served within the contract, in batches of any sizes, comes back from
   a snapshot exactly, in order, provided its advertised length fits an array.
   */
  method Snapshot(c: Config, batches: seq<seq<Entry>>) returns (ok: bool, ordered: seq<Entry>)
    requires Servable(c, batches)
    ensures ok <==> (c.exactLength.Some? ==> |Flat(batches)| <= 0x7fff_ffff)
    ensures ok ==> ordered == Flat(batches)
  {
    var calls;
    ghost var ops;
    ok, ordered, calls, ops := Materialize(c, Packed(batches));
    if c.exactLength.None? || c.exactLength.value <= 0x7fff_ffff {
      NeverFails(c, batches, ops);
      EndDeliversAll(c, batches, ops);
    }
  }
}
