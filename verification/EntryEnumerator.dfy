/**
 The .NET consumer of an entries cursor: `DictionaryEntryEnumerator` and
 `DictionarySnapshot.Materialize` (DictionaryCollections.cs).

 Unlike the JVM iterator it does not empty its queue when a batch is rejected, and a caller that
 goes on after an exception may see rejected entries, or `false` at an end that was not clean.
 `ReturnedIsQueued`, `RejectedVisible` and `EndIsCleanIff` say exactly what it sees.
 `Materialize` gives up at the first exception and is not affected.
 */
module EntryEnumerator {
  import opened Interop
  import opened Keys
  import opened EntryBatch
  import opened EntryLog

  datatype Cursor = Cursor(calls: seq<Call>, buffered: seq<Entry>, previous: Option<Key>, delivered: nat,
                           ended: bool, disposed: bool)

  const OPENED := Cursor([], [], None, 0, false, false)

  /** The new state, and whether an exception is thrown. */
  datatype Result = Result(cursor: Cursor, failed: bool)

  function Asked(s: Cursor, call: Call): Cursor {
    s.(calls := s.calls + [call])
  }

  /**
   `CloseCore` with `throwOnError`: it throws before any call if the provider has damaged the
   handle, and every cancel status but `OK` is an error.
   */
  function CloseCore(p: Provider, s: Cursor, cancel: bool): Result {
    if s.disposed then Result(s, false)
    else if !Intact(p, s.calls) then Result(s, true)
    else
      var s1 := if cancel then Asked(s, Cancel) else s;
      var s2 := Asked(s1, CloseCursor);
      var ok := Status(p, s2.calls) == OK;
      Result(s2.(disposed := ok), !ok || (cancel && Status(p, s1.calls) != OK))
  }

  function FailAndClose(p: Provider, s: Cursor): Result {
    Result(CloseCore(p, s, true).cursor, true)
  }

  predicate ExactOk(c: Config, total: nat) {
    c.exactLength.Some? ==> total == c.exactLength.value
  }

  function Finish(c: Config, p: Provider, s: Cursor, batch: Batch): Result {
    if batch != EMPTY then Result(s, true)
    else
      var s1 := s.(ended := true);
      if !ExactOk(c, s1.delivered) then Result(s1, true) else CloseCore(p, s1, false)
  }

  /** `CopyBatch` queues entries while it validates. */
  function Copied(c: Config, s: Cursor, reply: Reply): Cursor {
    var entries := Queue(c, reply, s.previous);
    s.(buffered := s.buffered + entries, previous := LastKey(s.previous, entries),
       delivered := Delivered(c, reply, s.previous, s.delivered))
  }

  /** A leased batch is released whatever the copy threw. */
  function Take(c: Config, p: Provider, s: Cursor, reply: Reply): Result {
    var s1 := Asked(Copied(c, s, reply), ReleaseBatch(reply.batch.generation));
    if Copyable(c, reply, s.previous, s.delivered) && Status(p, s1.calls) == OK then Result(s1, false)
    else FailAndClose(p, s1)
  }

  function Refill(c: Config, p: Provider, s: Cursor): Result {
    if !Intact(p, s.calls) then Result(s, true)
    else
      var s1 := Asked(s, NextBatch);
      var reply := p(s1.calls);
      if reply.status == END then Finish(c, p, s1, reply.batch)
      else if reply.status != OK then FailAndClose(p, s1)
      else Take(c, p, s1, reply)
  }

  /** Up to the point where `MoveNext` looks into the queue. */
  function Ensure(c: Config, p: Provider, s: Cursor): Result {
    if s.ended && s.disposed then Result(s, false)
    else if s.disposed then Result(s, true)
    else if s.buffered == [] && !s.ended then
      var refilled := Refill(c, p, s);
      if refilled.failed then FailAndClose(p, refilled.cursor) else refilled
    else Result(s, false)
  }

  /** `Dispose`. */
  function DisposeResult(p: Provider, s: Cursor): Result {
    CloseCore(p, s, !s.ended)
  }

  datatype Moved = Moved(cursor: Cursor, current: Option<Entry>, failed: bool)

  /** Looking into the queue; nothing is left once the enumerator ended and was disposed. */
  function Dequeue(s: Cursor): Moved {
    if s.buffered == [] || (s.ended && s.disposed) then Moved(s, None, false)
    else Moved(s.(buffered := s.buffered[1..]), Some(s.buffered[0]), false)
  }

  /** `MoveNext`: `current` is `None` when it answers false or throws. */
  function MoveNext(c: Config, p: Provider, s: Cursor): Moved {
    var r := Ensure(c, p, s);
    if r.failed then Moved(r.cursor, None, true) else Dequeue(r.cursor)
  }

  predicate AnswersFalse(m: Moved) {
    !m.failed && m.current.None?
  }

  // ---------------------------------------------------------------- a client session

  datatype Op = Move | Dispose

  /** `threw`: some `MoveNext` threw.  `stopped`: the client disposed before the end. */
  datatype Session = Session(cursor: Cursor, returned: seq<Entry>, threw: bool, stopped: bool)

  const BEGUN := Session(OPENED, [], false, false)

  function Advanced(s: Session, m: Moved): Session {
    Session(m.cursor, if m.current.Some? then s.returned + [m.current.value] else s.returned,
            s.threw || m.failed, s.stopped)
  }

  function Do(c: Config, p: Provider, s: Session, op: Op): Session {
    match op
    case Move => Advanced(s, MoveNext(c, p, s.cursor))
    case Dispose =>
      s.(cursor := DisposeResult(p, s.cursor).cursor, stopped := s.stopped || !s.cursor.ended)
  }

  function Run(c: Config, p: Provider, ops: seq<Op>): Session {
    if ops == [] then BEGUN else Do(c, p, Run(c, p, ops[..|ops| - 1]), ops[|ops| - 1])
  }

  // ---------------------------------------------------------------- the protocol, in every run

  ghost predicate Settled(c: Config, p: Provider, s: Cursor) {
    Consistent(c, p, false, s.calls, s.disposed, Accepted(c, p, s.calls))
  }

  lemma CloseCoreLog(c: Config, p: Provider, s: Cursor, cancel: bool, got: seq<Entry>)
    requires Consistent(c, p, false, s.calls, s.disposed, got)
    ensures var r := CloseCore(p, s, cancel).cursor; Consistent(c, p, false, r.calls, r.disposed, got)
  {
    if !s.disposed && Intact(p, s.calls) {
      if cancel {
        ConsistentAppend(c, p, false, s.calls, Cancel, got);
        ConsistentAppend(c, p, false, s.calls + [Cancel], CloseCursor, got);
      } else {
        ConsistentAppend(c, p, false, s.calls, CloseCursor, got);
      }
    }
  }

  lemma FailSettled(c: Config, p: Provider, s: Cursor)
    requires Settled(c, p, s)
    ensures Settled(c, p, FailAndClose(p, s).cursor)
  {
    CloseCoreLog(c, p, s, true, Accepted(c, p, s.calls));
  }

  lemma TakeSettled(c: Config, p: Provider, s: Cursor)
    requires Leased(p, s.calls) && Disciplined(c, p, false, s.calls) && !s.disposed
    ensures Settled(c, p, Take(c, p, s, p(s.calls)).cursor)
  {
    var reply := p(s.calls);
    LeaseSettled(c, p, false, s.calls);
    FailSettled(c, p, Asked(Copied(c, s, reply), ReleaseBatch(reply.batch.generation)));
  }

  lemma RefillSettled(c: Config, p: Provider, s: Cursor)
    requires Settled(c, p, s) && !s.disposed
    ensures Settled(c, p, Refill(c, p, s).cursor)
  {
    var s1 := Asked(s, NextBatch);
    DisciplinedAppend(c, p, false, s.calls, NextBatch);
    AcceptedOther(c, p, s.calls, NextBatch);
    if p(s1.calls).status == END {
      CloseCoreLog(c, p, s1.(ended := true), false, Accepted(c, p, s1.calls));
    } else if p(s1.calls).status != OK {
      FailSettled(c, p, s1);
    } else {
      TakeSettled(c, p, s1);
    }
  }

  lemma MoveSettled(c: Config, p: Provider, s: Cursor)
    requires Settled(c, p, s)
    ensures Settled(c, p, MoveNext(c, p, s).cursor)
  {
    if !s.disposed && s.buffered == [] && !s.ended {
      RefillSettled(c, p, s);
      FailSettled(c, p, Refill(c, p, s).cursor);
    }
  }

  /** Even after exceptions: leases are settled at once, and nothing follows a successful close. */
  lemma {:induction false} NativeProtocol(c: Config, p: Provider, ops: seq<Op>)
    ensures var s := Run(c, p, ops).cursor;
            Disciplined(c, p, false, s.calls) && !Leased(p, s.calls) && (s.disposed <==> Ended(p, s.calls))
  {
    if ops != [] {
      var s := Run(c, p, ops[..|ops| - 1]).cursor;
      NativeProtocol(c, p, ops[..|ops| - 1]);
      MoveSettled(c, p, s);
      CloseCoreLog(c, p, s, !s.ended, Accepted(c, p, s.calls));
    }
  }

  // ---------------------------------------------------------------- what every run returns

  /** The entries queued from all leased batches, accepted or not. */
  function Queued(c: Config, p: Provider, calls: seq<Call>): seq<Entry>
    decreases |calls|
  {
    if calls == [] then []
    else
      var before := calls[..|calls| - 1];
      var got := Queued(c, p, before);
      if calls[|calls| - 1].ReleaseBatch? && Leased(p, before) then got + Queue(c, p(before), LastKey(None, got))
      else got
  }

  lemma QueuedOther(c: Config, p: Provider, calls: seq<Call>, call: Call)
    requires !call.ReleaseBatch?
    ensures Queued(c, p, calls + [call]) == Queued(c, p, calls)
  {
    assert (calls + [call])[..|calls|] == calls;
  }

  lemma QueuedRelease(c: Config, p: Provider, calls: seq<Call>, generation: nat, got: seq<Entry>)
    requires Leased(p, calls) && got == Queued(c, p, calls)
    ensures Queued(c, p, calls + [ReleaseBatch(generation)]) == got + Queue(c, p(calls), LastKey(None, got))
  {
    assert (calls + [ReleaseBatch(generation)])[..|calls|] == calls;
  }

  lemma {:induction false} QueuedAscending(c: Config, p: Provider, calls: seq<Call>)
    ensures Ascending(KeysOf(Queued(c, p, calls)))
    decreases |calls|
  {
    if calls != [] {
      var before := calls[..|calls| - 1];
      var got := Queued(c, p, before);
      QueuedAscending(c, p, before);
      QueueContinues(c, p(before), LastKey(None, got));
      AscendingConcat(got, Queue(c, p(before), LastKey(None, got)));
    }
  }

  /** What was returned and what is queued are all entries queued so far, in order. */
  ghost predicate Tracked(c: Config, p: Provider, s: Cursor, returned: seq<Entry>) {
    var all := Queued(c, p, s.calls);
    returned + s.buffered == all && s.previous == LastKey(None, all) && (s.ended ==> s.buffered == [])
  }

  lemma CloseTracked(c: Config, p: Provider, s: Cursor, cancel: bool, returned: seq<Entry>)
    requires Tracked(c, p, s, returned)
    ensures Tracked(c, p, CloseCore(p, s, cancel).cursor, returned)
  {
    if !s.disposed && Intact(p, s.calls) {
      QueuedOther(c, p, s.calls, Cancel);
      QueuedOther(c, p, s.calls, CloseCursor);
      QueuedOther(c, p, s.calls + [Cancel], CloseCursor);
    }
  }

  lemma TakeTracked(c: Config, p: Provider, s: Cursor, returned: seq<Entry>)
    requires Tracked(c, p, s, returned) && s.buffered == [] && !s.ended && Leased(p, s.calls)
    ensures Tracked(c, p, Take(c, p, s, p(s.calls)).cursor, returned)
  {
    var reply := p(s.calls);
    assert returned + [] == returned && [] + Queue(c, reply, s.previous) == Queue(c, reply, s.previous);
    QueuedRelease(c, p, s.calls, reply.batch.generation, returned);
    CloseTracked(c, p, Asked(Copied(c, s, reply), ReleaseBatch(reply.batch.generation)), true, returned);
  }

  lemma RefillTracked(c: Config, p: Provider, s: Cursor, returned: seq<Entry>)
    requires Tracked(c, p, s, returned) && s.buffered == [] && !s.ended
    ensures Tracked(c, p, Refill(c, p, s).cursor, returned)
  {
    var s1 := Asked(s, NextBatch);
    QueuedOther(c, p, s.calls, NextBatch);
    if p(s1.calls).status == END {
      CloseTracked(c, p, s1.(ended := true), false, returned);
    } else if p(s1.calls).status != OK {
      CloseTracked(c, p, s1, true, returned);
    } else {
      TakeTracked(c, p, s1, returned);
    }
  }

  lemma EnsureTracked(c: Config, p: Provider, s: Cursor, returned: seq<Entry>)
    requires Tracked(c, p, s, returned)
    ensures Tracked(c, p, Ensure(c, p, s).cursor, returned)
  {
    if !s.disposed && s.buffered == [] && !s.ended {
      RefillTracked(c, p, s, returned);
      CloseTracked(c, p, Refill(c, p, s).cursor, true, returned);
    }
  }

  /** Moving the first queued entry to the end of the returned ones. */
  lemma MoveOne(returned: seq<Entry>, buffered: seq<Entry>)
    requires buffered != []
    ensures (returned + [buffered[0]]) + buffered[1..] == returned + buffered
  {
  }

  lemma DequeueTracked(c: Config, p: Provider, s: Cursor, returned: seq<Entry>)
    requires Tracked(c, p, s, returned)
    ensures var m := Dequeue(s);
            Tracked(c, p, m.cursor, if m.current.Some? then returned + [m.current.value] else returned)
  {
    if s.buffered != [] {
      MoveOne(returned, s.buffered);
      assert Queued(c, p, s.calls) == (returned + [s.buffered[0]]) + s.buffered[1..];
    }
  }

  lemma {:induction false} RunTracked(c: Config, p: Provider, ops: seq<Op>)
    ensures Tracked(c, p, Run(c, p, ops).cursor, Run(c, p, ops).returned)
  {
    if ops != [] {
      var s := Run(c, p, ops[..|ops| - 1]);
      RunTracked(c, p, ops[..|ops| - 1]);
      EnsureTracked(c, p, s.cursor, s.returned);
      DequeueTracked(c, p, Ensure(c, p, s.cursor).cursor, s.returned);
      CloseTracked(c, p, s.cursor, !s.cursor.ended, s.returned);
    }
  }

  /**
   Whatever the provider answers, and however often the client goes on after an exception: the
   entries returned are those queued from the leased batches, in order, including the rejected
   ones, with strictly ascending keys; only the ones still queued are missing.
   */
  lemma ReturnedIsQueued(c: Config, p: Provider, ops: seq<Op>)
    ensures var s := Run(c, p, ops);
            s.returned + s.cursor.buffered == Queued(c, p, s.cursor.calls) && Ascending(KeysOf(s.returned))
  {
    RunTracked(c, p, ops);
    var s := Run(c, p, ops);
    var all := Queued(c, p, s.cursor.calls);
    QueuedAscending(c, p, s.cursor.calls);
    AscendingPrefix(all, |s.returned|);
    assert s.returned == all[..|s.returned|];
  }

  // ---------------------------------------------------------------- runs without an exception

  /** What holds as long as no `MoveNext` has thrown; `returned` is what it returned so far. */
  ghost predicate Inv(c: Config, p: Provider, s: Cursor, returned: seq<Entry>) {
    var got := returned + s.buffered;
    && Consistent(c, p, false, s.calls, s.disposed, got)
    && (s.ended <==> s.disposed)
    && (if s.ended then s.buffered == [] && ExactOk(c, |got|)
        else s.previous == LastKey(None, got) && s.delivered == |got|)
  }

  /** What a copied batch does to the fields. */
  lemma BatchFields(c: Config, s: Cursor, reply: Reply, got: seq<Entry>)
    requires s.buffered == [] && s.previous == LastKey(None, got) && s.delivered == |got|
    requires Copyable(c, reply, s.previous, s.delivered)
    ensures var es := Queue(c, reply, s.previous);
            && es != []
            && Copied(c, s, reply) == s.(buffered := es, previous := LastKey(None, got + es), delivered := |got + es|)
  {
    BatchContinues(c, reply, got);
    assert [] + Queue(c, reply, s.previous) == Queue(c, reply, s.previous);
  }

  lemma TakeOk(c: Config, p: Provider, s: Cursor, got: seq<Entry>)
    requires Leased(p, s.calls) && Disciplined(c, p, false, s.calls) && Accepted(c, p, s.calls) == got
    requires !s.disposed && !s.ended && s.buffered == [] && s.previous == LastKey(None, got) && s.delivered == |got|
    requires !Take(c, p, s, p(s.calls)).failed
    ensures var r := Take(c, p, s, p(s.calls)).cursor; Inv(c, p, r, got) && r.buffered != []
  {
    var reply := p(s.calls);
    LeaseSettled(c, p, false, s.calls);
    AcceptedRelease(c, p, s.calls, reply.batch.generation, got);
    BatchFields(c, s, reply, got);
  }

  lemma RefillOk(c: Config, p: Provider, s: Cursor, returned: seq<Entry>)
    requires Inv(c, p, s, returned) && s.buffered == [] && !s.ended && !Refill(c, p, s).failed
    ensures var r := Refill(c, p, s).cursor; Inv(c, p, r, returned) && (r.ended || r.buffered != [])
  {
    var s1 := Asked(s, NextBatch);
    DisciplinedAppend(c, p, false, s.calls, NextBatch);
    AcceptedOther(c, p, s.calls, NextBatch);
    assert returned + [] == returned;
    if p(s1.calls).status == END {
      CloseCoreLog(c, p, s1.(ended := true), false, returned);
    } else {
      TakeOk(c, p, s1, returned);
    }
  }

  lemma DequeueOk(c: Config, p: Provider, s: Cursor, returned: seq<Entry>)
    requires Inv(c, p, s, returned)
    ensures var m := Dequeue(s);
            Inv(c, p, m.cursor, if m.current.Some? then returned + [m.current.value] else returned)
  {
    if s.buffered != [] {
      MoveOne(returned, s.buffered);
    }
  }

  lemma EnsureOk(c: Config, p: Provider, s: Cursor, returned: seq<Entry>)
    requires Inv(c, p, s, returned) && !Ensure(c, p, s).failed
    ensures var r := Ensure(c, p, s).cursor; Inv(c, p, r, returned) && (r.ended || r.buffered != [])
  {
    if s.buffered == [] && !s.ended {
      RefillOk(c, p, s, returned);
    }
  }

  /** A `MoveNext` that does not throw keeps the invariant, and is false only at the clean end. */
  lemma MoveNextOk(c: Config, p: Provider, s: Cursor, returned: seq<Entry>)
    requires Inv(c, p, s, returned) && !MoveNext(c, p, s).failed
    ensures var m := MoveNext(c, p, s);
            Inv(c, p, m.cursor, if m.current.Some? then returned + [m.current.value] else returned)
    ensures AnswersFalse(MoveNext(c, p, s)) ==> MoveNext(c, p, s).cursor.ended
  {
    EnsureOk(c, p, s, returned);
    DequeueOk(c, p, Ensure(c, p, s).cursor, returned);
  }

  // ---------------------------------------------------------------- when the answer is false

  /** The next call reaches the end: the empty batch, the advertised length, and a cursor that closes. */
  predicate EndsHere(c: Config, p: Provider, s: Cursor) {
    var asked := s.calls + [NextBatch];
    && !s.disposed && !s.ended && s.buffered == [] && Intact(p, s.calls)
    && Status(p, asked) == END && p(asked).batch == EMPTY && p(asked).intact
    && ExactOk(c, s.delivered) && Status(p, asked + [CloseCursor]) == OK
  }

  lemma RefillEnds(c: Config, p: Provider, s: Cursor)
    requires !s.disposed && !s.ended && s.buffered == []
    ensures var r := Refill(c, p, s);
            && (!r.failed && r.cursor.buffered == [] && r.cursor.ended <==> EndsHere(c, p, s))
            && (!r.failed && !r.cursor.ended ==> r.cursor.buffered != [])
  {
    var s1 := Asked(s, NextBatch);
    if Intact(p, s.calls) && p(s1.calls).status == OK && Copyable(c, p(s1.calls), s.previous, s.delivered) {
      CopyableNotEmpty(c, p(s1.calls), s.previous, s.delivered);
    }
  }

  lemma CopyableNotEmpty(c: Config, reply: Reply, previous: Option<Key>, delivered: nat)
    requires Copyable(c, reply, previous, delivered)
    ensures Queue(c, reply, previous) != []
  {
    PackAfterUnpack(c, reply.batch, previous, delivered);
  }

  /** In any reachable state `MoveNext` is false exactly if the enumeration ended before, or ends here. */
  lemma {:induction false} FalseIff(c: Config, p: Provider, ops: seq<Op>)
    ensures var s := Run(c, p, ops).cursor;
            AnswersFalse(MoveNext(c, p, s)) <==> s.ended || EndsHere(c, p, s)
  {
    RunTracked(c, p, ops);
    var s := Run(c, p, ops).cursor;
    if !s.disposed && !s.ended && s.buffered == [] {
      RefillEnds(c, p, s);
    }
  }

  // ---------------------------------------------------------------- whether the end was clean

  /** No exception so far, and no fault in the history. */
  ghost predicate Good(c: Config, p: Provider, s: Cursor, returned: seq<Entry>) {
    Inv(c, p, s, returned) && Faultless(c, p, true, s.calls) && !EndsWith(s.calls, NextBatch)
  }

  lemma RefillGood(c: Config, p: Provider, s: Cursor, returned: seq<Entry>)
    requires Good(c, p, s, returned) && s.buffered == [] && !s.ended && !Refill(c, p, s).failed
    ensures Good(c, p, Refill(c, p, s).cursor, returned)
  {
    RefillOk(c, p, s, returned);
    assert returned + [] == returned;
    var s1 := Asked(s, NextBatch);
    FaultlessPair(c, p, true, s.calls, if p(s1.calls).status == END then CloseCursor
                                 else ReleaseBatch(p(s1.calls).batch.generation));
  }


  lemma CloseExtends(p: Provider, s: Cursor, cancel: bool)
    ensures var r := CloseCore(p, s, cancel).cursor; s.calls <= r.calls && (!Intact(p, s.calls) ==> r == s)
  {
  }

  /** The second call of a refill releases the lease, or closes the cursor. */
  lemma TakeExtends(c: Config, p: Provider, s: Cursor, reply: Reply)
    ensures s.calls + [ReleaseBatch(reply.batch.generation)] <= Take(c, p, s, reply).cursor.calls
    ensures Take(c, p, s, reply).failed ==>
              !Copyable(c, reply, s.previous, s.delivered)
              || Status(p, s.calls + [ReleaseBatch(reply.batch.generation)]) != OK
  {
    CloseExtends(p, Asked(Copied(c, s, reply), ReleaseBatch(reply.batch.generation)), true);
  }

  lemma FinishExtends(c: Config, p: Provider, s: Cursor, batch: Batch)
    requires !s.disposed
    ensures s.calls <= Finish(c, p, s, batch).cursor.calls
    ensures Finish(c, p, s, batch).failed ==>
              || batch != EMPTY || !ExactOk(c, s.delivered) || !Intact(p, s.calls)
              || (s.calls + [CloseCursor] == Finish(c, p, s, batch).cursor.calls
                  && Status(p, s.calls + [CloseCursor]) != OK)
  {
  }

  lemma SecondCall(calls: seq<Call>, second: Call, all: seq<Call>)
    requires calls + [second] <= all
    ensures calls <= all && all[..|calls| + 1] == calls + [second]
  {
  }

  /** A refill that throws either made no call or left a fault in the history. */
  lemma RefillFaulty(c: Config, p: Provider, s: Cursor, returned: seq<Entry>)
    requires Good(c, p, s, returned) && s.buffered == [] && !s.ended && Refill(c, p, s).failed
    ensures !Intact(p, s.calls) || !Faultless(c, p, true, Refill(c, p, s).cursor.calls)
  {
    if Intact(p, s.calls) {
      assert returned + [] == returned;
      var s1, calls := Asked(s, NextBatch), Refill(c, p, s).cursor.calls;
      var r := p(s1.calls);
      if r.status == END {
        FinishExtends(c, p, s1, r.batch);
        if s1.calls + [CloseCursor] <= calls {
          SecondCall(s1.calls, CloseCursor, calls);
        }
      } else if r.status == OK {
        TakeExtends(c, p, s1, r);
        SecondCall(s1.calls, ReleaseBatch(r.batch.generation), calls);
      } else {
        CloseExtends(p, s1, true);
      }
      FaultAt(c, p, true, s.calls, calls);
    }
  }

  lemma RefillExtends(c: Config, p: Provider, s: Cursor)
    ensures s.calls <= Refill(c, p, s).cursor.calls
  {
    var s1 := Asked(s, NextBatch);
    if !s.disposed {
      FinishExtends(c, p, s1, p(s1.calls).batch);
    }
    CloseExtends(p, s1, true);
    TakeExtends(c, p, s1, p(s1.calls));
  }

  lemma MoveExtends(c: Config, p: Provider, s: Cursor)
    ensures s.calls <= MoveNext(c, p, s).cursor.calls
  {
    RefillExtends(c, p, s);
    CloseExtends(p, Refill(c, p, s).cursor, true);
  }

  /** The provider has damaged the handle, and every `MoveNext` throws without a call. */
  ghost predicate Stuck(p: Provider, s: Cursor) {
    !s.ended && !s.disposed && s.buffered == [] && !Intact(p, s.calls)
  }

  /** What is known of a session that was not disposed early. */
  ghost predicate Explained(c: Config, p: Provider, s: Session) {
    if s.threw then !Faultless(c, p, true, s.cursor.calls) || Stuck(p, s.cursor)
    else Good(c, p, s.cursor, s.returned)
  }

  lemma MoveGood(c: Config, p: Provider, s: Cursor, returned: seq<Entry>)
    requires Good(c, p, s, returned)
    ensures var m := MoveNext(c, p, s);
            if m.failed then !Faultless(c, p, true, m.cursor.calls) || Stuck(p, m.cursor)
            else Good(c, p, m.cursor, if m.current.Some? then returned + [m.current.value] else returned)
  {
    if s.buffered == [] && !s.ended {
      var r := Refill(c, p, s);
      if r.failed {
        RefillFaulty(c, p, s, returned);
        CloseExtends(p, r.cursor, true);
        if !Faultless(c, p, true, r.cursor.calls) {
          FaultPersists(c, p, true, r.cursor.calls, MoveNext(c, p, s).cursor.calls);
        }
      } else {
        RefillGood(c, p, s, returned);
        MoveNextOk(c, p, s, returned);
      }
    } else {
      MoveNextOk(c, p, s, returned);
    }
  }

  lemma MoveExplained(c: Config, p: Provider, s: Session)
    requires Explained(c, p, s)
    ensures Explained(c, p, Do(c, p, s, Move))
  {
    if !s.threw {
      MoveGood(c, p, s.cursor, s.returned);
    } else if !Faultless(c, p, true, s.cursor.calls) {
      MoveExtends(c, p, s.cursor);
      FaultPersists(c, p, true, s.cursor.calls, MoveNext(c, p, s.cursor).cursor.calls);
    }
  }

  lemma {:induction false} RunExplained(c: Config, p: Provider, ops: seq<Op>)
    requires !Run(c, p, ops).stopped
    ensures Explained(c, p, Run(c, p, ops))
  {
    if ops != [] {
      var s := Run(c, p, ops[..|ops| - 1]);
      RunExplained(c, p, ops[..|ops| - 1]);
      if ops[|ops| - 1].Move? {
        MoveExplained(c, p, s);
      } else {
        CloseExtends(p, s.cursor, !s.cursor.ended);
        if s.threw {
          FaultPersists(c, p, true, s.cursor.calls, CloseCore(p, s.cursor, !s.cursor.ended).cursor.calls);
        }
      }
    }
  }

  /**
   In any run that was not disposed early, a `MoveNext` has thrown only if some call of the history
   shows a fault, or the provider has damaged the handle, and none has thrown only if no call does.
   */
  lemma ThrewOnlyIfFault(c: Config, p: Provider, ops: seq<Op>)
    requires !Run(c, p, ops).stopped
    ensures var s := Run(c, p, ops);
            if Faultless(c, p, true, s.cursor.calls) then s.threw ==> !Intact(p, s.cursor.calls) else s.threw
  {
    RunExplained(c, p, ops);
  }

  /**
   When `MoveNext` answers false, in any run that was not disposed early: no earlier `MoveNext`
   threw exactly if no call of the history shows a fault, and then the entries returned are the
   accepted ones, of the advertised number, and the cursor was closed.
   */
  lemma EndIsCleanIff(c: Config, p: Provider, ops: seq<Op>)
    requires var s := Run(c, p, ops); !s.stopped && AnswersFalse(MoveNext(c, p, s.cursor))
    ensures var s := Run(c, p, ops);
            var m := MoveNext(c, p, s.cursor);
            && (!s.threw <==> Faultless(c, p, true, m.cursor.calls))
            && (!s.threw ==>
                  && s.returned == Accepted(c, p, m.cursor.calls)
                  && ExactOk(c, |s.returned|) && m.cursor.disposed)
  {
    var s := Run(c, p, ops);
    RunExplained(c, p, ops);
    if !s.threw {
      MoveGood(c, p, s.cursor, s.returned);
      MoveNextOk(c, p, s.cursor, s.returned);
      assert s.returned + [] == s.returned;
    } else {
      assert !Stuck(p, s.cursor);
      MoveExtends(c, p, s.cursor);
      FaultPersists(c, p, true, s.cursor.calls, MoveNext(c, p, s.cursor).cursor.calls);
    }
  }

  /** A provider that ends at once. */
  function Empty(): Provider {
    (calls: seq<Call>) => Reply(if EndsWith(calls, NextBatch) then END else OK, EMPTY, None, true)
  }

  /** With an advertised length of five, the first `MoveNext` throws and the second answers false. */
  lemma FalseAfterThrow()
    ensures var c, p := Config(DotNet, Byte, Unit, Some(5), 256, 65536, 256), Empty();
            var first := MoveNext(c, p, OPENED);
            first.failed && AnswersFalse(MoveNext(c, p, first.cursor)) && Accepted(c, p, first.cursor.calls) == []
  {
    var c, p := Config(DotNet, Byte, Unit, Some(5), 256, 65536, 256), Empty();
    var calls := OPENED.calls + [NextBatch];
    assert MoveNext(c, p, OPENED).cursor.calls == calls + [Cancel] + [CloseCursor];
    AcceptedOther(c, p, [], NextBatch);
    AcceptedOther(c, p, calls, Cancel);
    AcceptedOther(c, p, calls + [Cancel], CloseCursor);
  }

  // ---------------------------------------------------------------- disposing

  /**
   In every reachable state, `Dispose` of an open cursor cancels first unless the end was seen, and
   closes.  It throws exactly if one of these does not answer `OK`, or, without any call, if the
   handle is damaged; only a close that answers `OK` makes it disposed.
   */
  lemma DisposeOutcome(c: Config, p: Provider, ops: seq<Op>)
    ensures var s := Run(c, p, ops).cursor;
            var r := DisposeResult(p, s);
            var cancelled := if s.ended then s.calls else s.calls + [Cancel];
            if s.disposed then r == Result(s, false)
            else if s.calls != [] && !p(s.calls).intact then r == Result(s, true)
            else
              && r.cursor == s.(calls := cancelled + [CloseCursor],
                                disposed := p(cancelled + [CloseCursor]).status == 0)
              && (r.failed <==> p(cancelled + [CloseCursor]).status != 0 || (!s.ended && p(cancelled).status != 0))
  {
  }

  // ---------------------------------------------------------------- rejected batches

  /** A leased batch that cannot be copied or released. */
  predicate Rejected(c: Config, p: Provider, s: Cursor) {
    var asked := s.calls + [NextBatch];
    && s.buffered == [] && !s.ended && !s.disposed && Intact(p, s.calls)
    && Status(p, asked) == OK
    && (!Copyable(c, p(asked), s.previous, s.delivered)
        || Status(p, asked + [ReleaseBatch(p(asked).batch.generation)]) != OK)
  }

  /** An attempt to close fails because the handle is damaged or the close call is refused. */
  predicate CloseFails(p: Provider, calls: seq<Call>) {
    !Intact(p, calls) || Status(p, calls + [Cancel] + [CloseCursor]) != OK
  }

  function AfterClose(p: Provider, calls: seq<Call>): seq<Call> {
    if Intact(p, calls) then calls + [Cancel] + [CloseCursor] else calls
  }

  /** Both attempts to close the cursor after a rejected batch fail. */
  predicate CannotClose(p: Provider, s: Cursor) {
    var asked := s.calls + [NextBatch];
    var released := asked + [ReleaseBatch(p(asked).batch.generation)];
    CloseFails(p, released) && CloseFails(p, AfterClose(p, released))
  }

  lemma CloseOnce(p: Provider, s: Cursor)
    requires !s.disposed
    ensures FailAndClose(p, s).cursor == s.(calls := AfterClose(p, s.calls), disposed := !CloseFails(p, s.calls))
  {
  }

  lemma NextAfterRejection(c: Config, p: Provider, s: Cursor)
    requires !s.ended
    ensures var next := MoveNext(c, p, s);
            && (next.current.Some? && next.cursor.calls == s.calls <==> s.buffered != [] && !s.disposed)
            && (s.buffered != [] && !s.disposed ==> next.current.value == s.buffered[0])
  {
    if !s.disposed && s.buffered == [] && Intact(p, s.calls) {
      MoreCalls(c, p, s);
    }
  }

  /** A refill with an intact handle calls the provider. */
  lemma MoreCalls(c: Config, p: Provider, s: Cursor)
    requires !s.disposed && !s.ended && s.buffered == [] && Intact(p, s.calls)
    ensures |MoveNext(c, p, s).cursor.calls| > |s.calls|
  {
    var r := Refill(c, p, s);
    assert |r.cursor.calls| > |s.calls|;
    CloseExtends(p, r.cursor, true);
  }

  /**
   A rejected batch makes `MoveNext` throw.  The next `MoveNext` nevertheless yields an entry
   of that batch exactly if the copy had queued one and the cursor could not be closed.
   */
  lemma RejectedVisible(c: Config, p: Provider, s: Cursor)
    requires Rejected(c, p, s)
    ensures var queued := Queue(c, p(s.calls + [NextBatch]), s.previous);
            var after := MoveNext(c, p, s);
            var next := MoveNext(c, p, after.cursor);
            && after.failed && after.cursor.buffered == queued
            && (next.current.Some? && next.cursor.calls == after.cursor.calls <==> queued != [] && CannotClose(p, s))
            && (queued != [] && CannotClose(p, s) ==> next.current.value == queued[0])
  {
    var asked := Asked(s, NextBatch);
    var reply := p(asked.calls);
    assert [] + Queue(c, reply, s.previous) == Queue(c, reply, s.previous);
    var s1 := Asked(Copied(c, asked, reply), ReleaseBatch(reply.batch.generation));
    CloseOnce(p, s1);
    var s2 := FailAndClose(p, s1).cursor;
    assert Refill(c, p, s) == Result(s2, true);
    if !s2.disposed {
      CloseOnce(p, s2);
    }
    NextAfterRejection(c, p, FailAndClose(p, s2).cursor);
  }

  /** A provider whose batch is out of order and whose cursor cannot be closed. */
  function Stubborn(): Provider {
    (calls: seq<Call>) =>
      if EndsWith(calls, NextBatch)
      then
        var ds := [Descriptor(0, 1, 0, 0, 0), Descriptor(1, 1, 0, 0, 0)];
        Reply(OK, Batch(8, ds, 8, [2, 1], 0, [], 1, 0), None, true)
      else Reply(if calls != [] && calls[|calls| - 1].ReleaseBatch? then OK else 8, EMPTY, None, true)
  }

  lemma StubbornScan(c: Config)
    requires c == Config(DotNet, Byte, Unit, None, 256, 65536, 256)
    ensures ScanBatch(c, Stubborn()([NextBatch]).batch, None) == Scan([Entry(Key(Byte, [2]), None)], false)
  {
    var ds, units := [Descriptor(0, 1, 0, 0, 0), Descriptor(1, 1, 0, 0, 0)], [2, 1];
    var batch := Batch(8, ds, 8, units, 0, [], 1, 0);
    assert Stubborn()([NextBatch]).batch == batch;
    var e := Entry(Key(Byte, [2]), None);
    assert units[0..1] == [2] && units[1..2] == [1];
    assert DecodeOne(c, ds[0], units, [], 0, 0, None) == Some(e);
    assert DecodeOne(c, ds[1], units, [], 1, 0, Some(e.key)) == None;
    assert ds[1..] == [ds[1]];
    assert ScanFrom(c, ds[1..], units, [], 1, 0, Some(e.key)) == Scan([], false);
    assert ScanFrom(c, ds, units, [], 0, 0, None) == Scan([e], false);
  }

  lemma StubbornRejected(c: Config, p: Provider)
    requires c == Config(DotNet, Byte, Unit, None, 256, 65536, 256) && p == Stubborn()
    ensures Rejected(c, p, OPENED) && CannotClose(p, OPENED)
    ensures Queue(c, p(OPENED.calls + [NextBatch]), None) == [Entry(Key(Byte, [2]), None)]
  {
    StubbornScan(c);
    assert OPENED.calls + [NextBatch] == [NextBatch];
  }

  lemma AcceptedAfterClose(c: Config, p: Provider, calls: seq<Call>)
    ensures Accepted(c, p, AfterClose(p, calls)) == Accepted(c, p, calls)
  {
    AcceptedOther(c, p, calls, Cancel);
    AcceptedOther(c, p, calls + [Cancel], CloseCursor);
  }

  /** Two failed attempts to close do not add to what was accepted before the rejected batch. */
  lemma RejectedNotAccepted(c: Config, p: Provider, s: Cursor)
    requires Rejected(c, p, s) && CannotClose(p, s) && Accepted(c, p, s.calls) == [] && s.previous == None
    requires s.delivered == 0
    ensures Accepted(c, p, MoveNext(c, p, s).cursor.calls) == []
  {
    var asked := Asked(s, NextBatch);
    var reply := p(asked.calls);
    var s1 := Asked(Copied(c, asked, reply), ReleaseBatch(reply.batch.generation));
    CloseOnce(p, s1);
    CloseOnce(p, FailAndClose(p, s1).cursor);
    AcceptedOther(c, p, s.calls, NextBatch);
    AcceptedRelease(c, p, asked.calls, reply.batch.generation, []);
    AcceptedAfterClose(c, p, s1.calls);
    AcceptedAfterClose(c, p, AfterClose(p, s1.calls));
  }

  /** So batch atomicity, which the JVM iterator has, fails here: a rejected entry is returned. */
  lemma AtomicityFails()
    ensures var c, p := Config(DotNet, Byte, Unit, None, 256, 65536, 256), Stubborn();
            var first := MoveNext(c, p, OPENED);
            && first.failed && Accepted(c, p, first.cursor.calls) == []
            && MoveNext(c, p, first.cursor).current == Some(Entry(Key(Byte, [2]), None))
  {
    var c, p := Config(DotNet, Byte, Unit, None, 256, 65536, 256), Stubborn();
    StubbornRejected(c, p);
    RejectedVisible(c, p, OPENED);
    RejectedNotAccepted(c, p, OPENED);
  }

  // ---------------------------------------------------------------- the class of the source

  class DictionaryEntryEnumerator {
    const config: Config
    const provider: Provider
    var calls: seq<Call>
    var buffered: seq<Entry>
    var previous: Option<Key>
    var delivered: nat
    var ended: bool
    var disposed: bool
    var current: Option<Entry>

    function View(): Cursor
      reads this
    {
      Cursor(calls, buffered, previous, delivered, ended, disposed)
    }

    constructor (config: Config, provider: Provider)
      ensures View() == OPENED && this.config == config && this.provider == provider
    {
      this.config, this.provider := config, provider;
      calls, buffered, previous, delivered := [], [], None, 0;
      ended, disposed, current := false, false, None;
    }

    method Invoke(call: Call) returns (reply: Reply)
      modifies this`calls
      ensures calls == old(calls) + [call] && reply == provider(calls)
    {
      calls := calls + [call];
      reply := provider(calls);
    }

    method CloseNative(cancel: bool) returns (failed: bool)
      modifies this`calls, this`disposed
      ensures Result(View(), failed) == CloseCore(provider, old(View()), cancel)
    {
      failed := false;
      if disposed {
        return;
      }
      if !Intact(provider, calls) {
        return true;
      }
      if cancel {
        var reply := Invoke(Cancel);
        failed := reply.status != OK;
      }
      var reply := Invoke(CloseCursor);
      if reply.status == OK {
        disposed := true;
      } else {
        failed := true;
      }
    }

    /** What `Refill` does at the end of the entries. */
    method FinishBatches(batch: Batch) returns (failed: bool)
      modifies this
      ensures Result(View(), failed) == Finish(config, provider, old(View()), batch)
    {
      if batch != EMPTY {
        return true;
      }
      ended := true;
      if config.exactLength.Some? && delivered != config.exactLength.value {
        return true;
      }
      failed := CloseNative(false);
    }

    /** What `Refill` does with a leased batch. */
    method TakeBatch(reply: Reply) returns (failed: bool)
      modifies this
      ensures Result(View(), failed) == Take(config, provider, old(View()), reply)
    {
      var entries, last, total, ok, _ := CopyReply(config, reply, previous, delivered);
      buffered, previous, delivered := buffered + entries, last, total;
      var released := Invoke(ReleaseBatch(reply.batch.generation));
      failed := !ok || released.status != OK;
      if failed {
        var _ := CloseNative(true);
      }
    }

    method RefillBatch() returns (failed: bool)
      modifies this
      ensures Result(View(), failed) == Refill(config, provider, old(View()))
    {
      if !Intact(provider, calls) {
        return true;
      }
      var reply := Invoke(NextBatch);
      if reply.status == END {
        failed := FinishBatches(reply.batch);
      } else if reply.status != OK {
        var _ := CloseNative(true);
        failed := true;
      } else {
        failed := TakeBatch(reply);
      }
    }

    method Advance() returns (moved: bool, failed: bool)
      modifies this
      ensures var m := MoveNext(config, provider, old(View()));
              View() == m.cursor && failed == m.failed && moved == m.current.Some?
              && (moved ==> current == m.current)
    {
      moved, failed := false, false;
      if ended && disposed {
        return;
      }
      if disposed {
        return false, true;
      }
      if buffered == [] && !ended {
        failed := RefillBatch();
        if failed {
          var _ := CloseNative(true);
          return false, true;
        }
      }
      if buffered == [] || (ended && disposed) {
        return;
      }
      current, buffered := Some(buffered[0]), buffered[1..];
      moved := true;
    }

    method DisposeCursor() returns (failed: bool)
      modifies this
      ensures Result(View(), failed) == DisposeResult(provider, old(View()))
    {
      failed := CloseNative(!ended);
    }
  }

  // ---------------------------------------------------------------- materialising a snapshot

  /** An array in which every slot is filled. */
  function Filled(es: seq<Entry>): seq<Option<Entry>> {
    seq(|es|, i requires 0 <= i < |es| => Some(es[i]))
  }

  /** The entries returned so far leave room for those still queued. */
  lemma RoomLeft(c: Config, p: Provider, s: Cursor, returned: seq<Entry>)
    requires Inv(c, p, s, returned)
    ensures returned != [] ==> TotalOk(c, |returned|)
  {
    AcceptedAscending(c, p, s.calls);
  }

  /** One `MoveNext` of a loop that has seen no exception. */
  method AdvanceOk(cursor: DictionaryEntryEnumerator, ghost returned: seq<Entry>) returns (moved: bool, failed: bool)
    requires Good(cursor.config, cursor.provider, cursor.View(), returned)
    modifies cursor
    ensures moved ==> !failed && cursor.current.Some?
    ensures !failed ==> Good(cursor.config, cursor.provider, cursor.View(),
                             if moved then returned + [cursor.current.value] else returned)
    ensures !failed && !moved ==> cursor.ended
    ensures failed ==> Broken(cursor.config, cursor.provider, cursor.View())
  {
    ghost var before := cursor.View();
    moved, failed := cursor.Advance();
    MoveGood(cursor.config, cursor.provider, before, returned);
    MoveSettled(cursor.config, cursor.provider, before);
    if !failed {
      MoveNextOk(cursor.config, cursor.provider, before, returned);
    }
  }

  /** After an exception: a fault in the history, or a damaged handle on an open cursor. */
  ghost predicate Broken(c: Config, p: Provider, s: Cursor) {
    Settled(c, p, s) && (!Faultless(c, p, true, s.calls) || Stuck(p, s))
  }

  /** The `Dispose` at the end of a snapshot. */
  method DisposeAtEnd(cursor: DictionaryEntryEnumerator, broken: bool, ghost returned: seq<Entry>)
    returns (failed: bool)
    requires if broken then Broken(cursor.config, cursor.provider, cursor.View())
             else Good(cursor.config, cursor.provider, cursor.View(), returned) && cursor.ended
    modifies cursor
    ensures broken <==> !(Faultless(cursor.config, cursor.provider, true, cursor.calls)
                          && Ended(cursor.provider, cursor.calls))
    ensures !broken ==> !failed && cursor.View() == old(cursor.View())
  {
    ghost var s := cursor.View();
    failed := cursor.DisposeCursor();
    CloseExtends(cursor.provider, s, !s.ended);
    if !Faultless(cursor.config, cursor.provider, true, s.calls) {
      FaultPersists(cursor.config, cursor.provider, true, s.calls, cursor.calls);
    }
  }

  /** The preallocated array of an advertised length: each write is in bounds. */
  method FillSlots(cursor: DictionaryEntryEnumerator, size: nat)
    returns (failed: bool, snapshot: seq<Option<Entry>>, ghost returned: seq<Entry>)
    requires cursor.View() == OPENED && cursor.config.exactLength == Some(size)
    modifies cursor
    ensures !failed ==> |returned| <= |snapshot| == size && snapshot[..|returned|] == Filled(returned)
    ensures !failed ==> cursor.ended && Good(cursor.config, cursor.provider, cursor.View(), returned)
    ensures failed ==> Broken(cursor.config, cursor.provider, cursor.View())
  {
    var slots := new Option<Entry>[size](_ => None);
    var index := 0;
    returned := [];
    var moved;
    moved, failed := AdvanceOk(cursor, returned);
    while moved
      invariant index == |returned| <= slots.Length && slots[..index] == Filled(returned)
      invariant moved ==> !failed && cursor.current.Some?
      invariant !failed ==> Good(cursor.config, cursor.provider, cursor.View(),
                                 if moved then returned + [cursor.current.value] else returned)
      invariant !failed && !moved ==> cursor.ended
      invariant failed ==> Broken(cursor.config, cursor.provider, cursor.View())
      decreases slots.Length - index, moved
    {
      returned := returned + [cursor.current.value];
      RoomLeft(cursor.config, cursor.provider, cursor.View(), returned);
      slots[index] := cursor.current;
      index := index + 1;
      moved, failed := AdvanceOk(cursor, returned);
    }
    snapshot := slots[..];
  }

  /** The growing list used when no length is advertised. */
  method CollectEntries(cursor: DictionaryEntryEnumerator) returns (failed: bool, entries: seq<Entry>)
    requires cursor.View() == OPENED
    modifies cursor
    ensures !failed ==> cursor.ended && Good(cursor.config, cursor.provider, cursor.View(), entries)
    ensures failed ==> Broken(cursor.config, cursor.provider, cursor.View())
  {
    entries := [];
    var moved;
    moved, failed := AdvanceOk(cursor, entries);
    while moved
      invariant moved ==> !failed && cursor.current.Some?
      invariant !failed ==> Good(cursor.config, cursor.provider, cursor.View(),
                                 if moved then entries + [cursor.current.value] else entries)
      invariant !failed && !moved ==> cursor.ended
      invariant failed ==> Broken(cursor.config, cursor.provider, cursor.View())
      decreases WordMax(cursor.config.runtime) - |entries|, moved
    {
      entries := entries + [cursor.current.value];
      RoomLeft(cursor.config, cursor.provider, cursor.View(), entries);
      moved, failed := AdvanceOk(cursor, entries);
    }
  }

  /** What the invariant says at the end. */
  lemma EndedOk(c: Config, p: Provider, s: Cursor, returned: seq<Entry>)
    requires Inv(c, p, s, returned) && s.ended
    ensures returned == Accepted(c, p, s.calls) && Ascending(KeysOf(returned))
    ensures Ended(p, s.calls) && Disciplined(c, p, false, s.calls)
    ensures c.exactLength.Some? ==> |returned| == c.exactLength.value
  {
    assert returned + [] == returned;
    AcceptedAscending(c, p, s.calls);
  }

  /**
   `Materialize`, for any provider: it returns normally exactly if the advertised length fits an
   array, no call shows a fault and the last one closed the cursor.  Then the snapshot holds the
   accepted entries in ascending order, no slot of a preallocated array was left unfilled and the
   advertised length is met.  The loops end because `delivered` is a 64-bit count.
   */
  method Materialize(c: Config, p: Provider) returns (ok: bool, snapshot: seq<Option<Entry>>, calls: seq<Call>)
    ensures ok <==> (c.exactLength.Some? ==> c.exactLength.value <= 0x7fff_ffff)
                    && Faultless(c, p, true, calls) && Ended(p, calls)
    ensures ok ==> snapshot == Filled(Accepted(c, p, calls)) && Disciplined(c, p, false, calls)
    ensures ok ==> Ascending(KeysOf(Accepted(c, p, calls)))
    ensures ok && c.exactLength.Some? ==> |snapshot| == c.exactLength.value
  {
    var cursor := new DictionaryEntryEnumerator(c, p);
    if c.exactLength.Some? && c.exactLength.value > MAX_INT32 {
      var _ := cursor.DisposeCursor();
      return false, [], cursor.calls;
    }
    ghost var returned;
    var failed;
    if c.exactLength.Some? {
      failed, snapshot, returned := FillSlots(cursor, c.exactLength.value);
    } else {
      var entries;
      failed, entries := CollectEntries(cursor);
      snapshot, returned := Filled(entries), entries;
    }
    if !failed {
      EndedOk(c, p, cursor.View(), returned);
      assert snapshot[..|returned|] == snapshot;
    }
    var disposeFailed := DisposeAtEnd(cursor, failed, returned);
    ok, calls := !failed && !disposeFailed, cursor.calls;
  }
}
