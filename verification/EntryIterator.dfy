/**
 The JVM consumer of an entries cursor: `DictionaryEntryIterator` (DictionaryEntryIterator.java),
 with its native `State` and the run-once `Cleaner.Cleanable`.

 `Cursor` is the state of the iterator and the functions below are its methods, call by call.
 The class has the fields the source updates, and its methods compute those functions.

 A failure is a `RuntimeException`, except that copying a batch may also run out of memory.
 That `Error` is not caught by `refill`, which then neither releases the batch nor closes the
 cursor; `hasNext` catches it.
 */
module EntryIterator {
  import opened Interop
  import opened Keys
  import opened EntryBatch
  import opened EntryLog

  datatype Cursor = Cursor(calls: seq<Call>, buffered: seq<Entry>, previous: Option<Key>, delivered: nat,
                           exhausted: bool, closed: bool, cleaned: bool)

  const OPENED := Cursor([], [], None, 0, false, false, false)

  /** The new state, and whether an exception is thrown. */
  datatype Result = Result(cursor: Cursor, failed: bool)

  function Asked(s: Cursor, call: Call): Cursor {
    s.(calls := s.calls + [call])
  }

  // ---------------------------------------------------------------- State and Cleanable

  predicate CancelAccepted(status: nat) {
    status == OK || status == BATCH_IN_USE
  }

  /** `State.close`. */
  function CloseState(p: Provider, s: Cursor, cancelFirst: bool): Result {
    if s.closed then Result(s, false)
    else
      var s1 := if cancelFirst then Asked(s, Cancel) else s;
      var s2 := Asked(s1, CloseCursor);
      var ok := Status(p, s2.calls) == OK;
      Result(s2.(closed := ok), !ok || (cancelFirst && !CancelAccepted(Status(p, s1.calls))))
  }

  /** `Cleanable.clean`, which runs `State.run` at most once. */
  function Clean(p: Provider, s: Cursor): Cursor {
    if s.cleaned then s else CloseState(p, s, true).cursor.(cleaned := true)
  }

  function Abandon(s: Cursor): Cursor {
    s.(exhausted := true, buffered := [])
  }

  /** `failAndClose`; the `catch` block of `hasNext` does the same once more. */
  function FailAndClose(p: Provider, s: Cursor): Result {
    Result(Abandon(Clean(p, CloseState(p, s, true).cursor)), true)
  }

  // ---------------------------------------------------------------- the iterator

  function Finish(c: Config, p: Provider, s: Cursor, batch: Batch): Result {
    if batch != EMPTY then Result(s, true)
    else
      var s1 := s.(exhausted := true);
      if c.exactLength.Some? && s1.delivered != c.exactLength.value then Result(s1, true)
      else
        var closing := CloseState(p, s1, false);
        if closing.failed then closing else Result(Clean(p, closing.cursor), false)
  }

  /** `copyBatch` queues entries while it validates, so a failure leaves some of them queued. */
  function Copied(c: Config, s: Cursor, reply: Reply): Cursor {
    var entries := Queue(c, reply, s.previous);
    s.(buffered := s.buffered + entries, previous := LastKey(s.previous, entries),
       delivered := Delivered(c, reply, s.previous, s.delivered))
  }

  /** What `refill` does with a leased batch; an `Error` escapes from the copy without a release. */
  function Take(c: Config, p: Provider, s: Cursor, reply: Reply): Result {
    var s1 := Copied(c, s, reply);
    if Struck(c, reply, s.previous) then Result(s1, true)
    else
      var s2 := Asked(s1, ReleaseBatch(reply.batch.generation));
      if Copyable(c, reply, s.previous, s.delivered) && Status(p, s2.calls) == OK then Result(s2, false)
      else FailAndClose(p, s2)
  }

  function Refill(c: Config, p: Provider, s: Cursor): Result {
    var s1 := Asked(s, NextBatch);
    var reply := p(s1.calls);
    if reply.status == END then Finish(c, p, s1, reply.batch)
    else if reply.status != OK then FailAndClose(p, s1)
    else Take(c, p, s1, reply)
  }

  function HasNextResult(c: Config, p: Provider, s: Cursor): Result {
    if s.buffered != [] || s.exhausted then Result(s, false)
    else
      var refilled := Refill(c, p, s);
      if refilled.failed then FailAndClose(p, refilled.cursor) else refilled
  }

  function CloseResult(p: Provider, s: Cursor): Result {
    var closing := CloseState(p, Abandon(s), true);
    Result(Clean(p, closing.cursor), closing.failed)
  }

  // ---------------------------------------------------------------- a client session

  datatype Op = HasNext | Next | Close

  /** `failed`: some call threw a failure.  `stopped`: the client closed before the end. */
  datatype Session = Session(cursor: Cursor, returned: seq<Entry>, failed: bool, stopped: bool)

  const BEGUN := Session(OPENED, [], false, false)

  /** What `next` does once `hasNext` has answered. */
  function Deliver(s: Session, r: Result): Session {
    var cursor := r.cursor;
    if r.failed || cursor.buffered == [] then s.(cursor := cursor, failed := s.failed || r.failed)
    else s.(cursor := cursor.(buffered := cursor.buffered[1..]), returned := s.returned + [cursor.buffered[0]])
  }

  function Do(c: Config, p: Provider, s: Session, op: Op): Session {
    match op
    case HasNext =>
      var r := HasNextResult(c, p, s.cursor);
      s.(cursor := r.cursor, failed := s.failed || r.failed)
    case Next => Deliver(s, HasNextResult(c, p, s.cursor))
    case Close =>
      s.(cursor := CloseResult(p, s.cursor).cursor, stopped := s.stopped || !s.cursor.exhausted)
  }

  function Run(c: Config, p: Provider, ops: seq<Op>): Session {
    if ops == [] then BEGUN else Do(c, p, Run(c, p, ops[..|ops| - 1]), ops[|ops| - 1])
  }

  // ---------------------------------------------------------------- the log of native calls

  lemma CloseStateLog(c: Config, p: Provider, s: Cursor, cancelFirst: bool, got: seq<Entry>)
    requires || Consistent(c, p, true, s.calls, s.closed, got)
             || (cancelFirst && Abandoned(c, p, true, s.calls, s.closed, got))
    ensures var s' := CloseState(p, s, cancelFirst).cursor; Consistent(c, p, true, s'.calls, s'.closed, got)
  {
    if !s.closed {
      if cancelFirst {
        if Escapes(c, p, true, s.calls) {
          AbandonedCancel(c, p, true, s.calls, got);
        } else {
          ConsistentAppend(c, p, true, s.calls, Cancel, got);
        }
        ConsistentAppend(c, p, true, s.calls + [Cancel], CloseCursor, got);
      } else {
        ConsistentAppend(c, p, true, s.calls, CloseCursor, got);
      }
    }
  }

  lemma CleanLog(c: Config, p: Provider, s: Cursor, got: seq<Entry>)
    requires Consistent(c, p, true, s.calls, s.closed, got)
    ensures Consistent(c, p, true, Clean(p, s).calls, Clean(p, s).closed, got)
  {
    CloseStateLog(c, p, s, true, got);
  }

  lemma FailLog(c: Config, p: Provider, s: Cursor, got: seq<Entry>)
    requires Consistent(c, p, true, s.calls, s.closed, got) || Abandoned(c, p, true, s.calls, s.closed, got)
    ensures var s' := FailAndClose(p, s).cursor; Consistent(c, p, true, s'.calls, s'.closed, got)
  {
    CloseStateLog(c, p, s, true, got);
    CleanLog(c, p, CloseState(p, s, true).cursor, got);
  }

  lemma FinishLog(c: Config, p: Provider, s: Cursor, batch: Batch, got: seq<Entry>)
    requires Consistent(c, p, true, s.calls, s.closed, got)
    ensures var s' := Finish(c, p, s, batch).cursor; Consistent(c, p, true, s'.calls, s'.closed, got)
  {
    if batch == EMPTY && !(c.exactLength.Some? && s.delivered != c.exactLength.value) {
      var s1 := s.(exhausted := true);
      CloseStateLog(c, p, s1, false, got);
      var closing := CloseState(p, s1, false);
      if !closing.failed {
        CleanLog(c, p, closing.cursor, got);
      }
    }
  }

  /** The invariant of a session between two client calls. */
  ghost predicate Inv(c: Config, p: Provider, s: Session) {
    var k, got := s.cursor, Accepted(c, p, s.cursor.calls);
    && Consistent(c, p, true, k.calls, k.closed, got)
    && (k.closed || k.cleaned || s.failed || s.stopped ==> k.exhausted)
    && (k.exhausted ==> k.buffered == [])
    && (!k.exhausted ==> k.previous == LastKey(None, got) && k.delivered == |got|)
    && (if s.stopped then s.returned <= got else s.returned + k.buffered == got)
    && (k.exhausted && !s.failed && !s.stopped ==> k.closed)
    && (k.exhausted && !s.failed && !s.stopped && c.exactLength.Some? ==> |got| == c.exactLength.value)
  }

  /** The iterator at the end of its buffer, with `got` delivered so far. */
  ghost predicate AtEnd(c: Config, p: Provider, s: Cursor, got: seq<Entry>) {
    && Consistent(c, p, true, s.calls, s.closed, got) && !s.closed && !s.cleaned && !s.exhausted && s.buffered == []
    && s.previous == LastKey(None, got) && s.delivered == |got|
  }

  /** A refill that fails delivers nothing. */
  ghost predicate FailedRefill(c: Config, p: Provider, s: Cursor, got: seq<Entry>) {
    Consistent(c, p, true, s.calls, s.closed, got) || Abandoned(c, p, true, s.calls, s.closed, got)
  }

  /** One that does not fail queues a batch, or ends cleanly. */
  ghost predicate GoodRefill(c: Config, p: Provider, s: Cursor, got: seq<Entry>) {
    && Consistent(c, p, true, s.calls, s.closed, got + s.buffered)
    && (if s.exhausted then s.buffered == [] && s.closed && (c.exactLength.Some? ==> |got| == c.exactLength.value)
        else s.buffered != [] && !s.closed && !s.cleaned
             && s.previous == LastKey(None, got + s.buffered) && s.delivered == |got + s.buffered|)
  }

  /** What a copied batch does to the fields. */
  lemma BatchFields(c: Config, s: Cursor, reply: Reply, got: seq<Entry>)
    requires s.buffered == [] && s.previous == LastKey(None, got) && s.delivered == |got|
    requires Copyable(c, reply, s.previous, s.delivered)
    ensures var es := Queue(c, reply, s.previous);
            && es != []
            && Copied(c, s, reply) == s.(buffered := es, previous := LastKey(None, got + es), delivered := |got + es|)
  {
    BatchContinues(c, reply, got);
    assert [] + Queue(c, reply, s.previous) == Queue(c, reply, s.previous);
  }

  /** A leased batch is settled and delivered, settled and rejected, or abandoned. */
  lemma TakeOk(c: Config, p: Provider, s: Cursor, got: seq<Entry>)
    requires Leased(p, s.calls) && Disciplined(c, p, true, s.calls) && Accepted(c, p, s.calls) == got
    requires !s.closed && !s.cleaned && !s.exhausted && s.buffered == []
    requires s.previous == LastKey(None, got) && s.delivered == |got|
    ensures var r := Take(c, p, s, p(s.calls));
            if r.failed then FailedRefill(c, p, r.cursor, got) else GoodRefill(c, p, r.cursor, got)
  {
    var reply := p(s.calls);
    if !Struck(c, reply, s.previous) {
      var s2 := Asked(Copied(c, s, reply), ReleaseBatch(reply.batch.generation));
      LeaseSettled(c, p, true, s.calls);
      AcceptedRelease(c, p, s.calls, reply.batch.generation, got);
      if Copyable(c, reply, s.previous, s.delivered) && Status(p, s2.calls) == OK {
        BatchFields(c, s, reply, got);
      } else {
        FailLog(c, p, s2, got);
      }
    }
  }

  lemma FinishOk(c: Config, p: Provider, s: Cursor, batch: Batch, got: seq<Entry>)
    requires Consistent(c, p, true, s.calls, s.closed, got) && s.buffered == [] && s.delivered == |got|
    ensures var r := Finish(c, p, s, batch);
            if r.failed then FailedRefill(c, p, r.cursor, got) else GoodRefill(c, p, r.cursor, got)
  {
    FinishLog(c, p, s, batch, got);
    assert got + [] == got;
  }

  lemma RefillOk(c: Config, p: Provider, s: Cursor, got: seq<Entry>)
    requires AtEnd(c, p, s, got)
    ensures var r := Refill(c, p, s);
            if r.failed then FailedRefill(c, p, r.cursor, got) else GoodRefill(c, p, r.cursor, got)
  {
    var s1 := Asked(s, NextBatch);
    var reply := p(s1.calls);
    DisciplinedAppend(c, p, true, s.calls, NextBatch);
    AcceptedOther(c, p, s.calls, NextBatch);
    if reply.status == END {
      FinishOk(c, p, s1, reply.batch, got);
    } else if reply.status != OK {
      FailLog(c, p, s1, got);
    } else {
      TakeOk(c, p, s1, got);
    }
  }

  lemma HasNextOk(c: Config, p: Provider, s: Session)
    requires Inv(c, p, s)
    ensures var r := HasNextResult(c, p, s.cursor);
            Inv(c, p, s.(cursor := r.cursor, failed := s.failed || r.failed))
    ensures HasNextResult(c, p, s.cursor).cursor.exhausted || HasNextResult(c, p, s.cursor).cursor.buffered != []
  {
    if s.cursor.buffered == [] && !s.cursor.exhausted {
      RefillOk(c, p, s.cursor, s.returned);
      var r := Refill(c, p, s.cursor);
      if r.failed {
        FailLog(c, p, r.cursor, s.returned);
      }
    }
  }

  lemma CloseOk(c: Config, p: Provider, s: Session)
    requires Inv(c, p, s)
    ensures Inv(c, p, Do(c, p, s, Close))
  {
    var got := Accepted(c, p, s.cursor.calls);
    CloseStateLog(c, p, Abandon(s.cursor), true, got);
    CleanLog(c, p, CloseState(p, Abandon(s.cursor), true).cursor, got);
  }

  lemma DeliverOk(c: Config, p: Provider, s: Session, r: Result)
    requires Inv(c, p, s.(cursor := r.cursor, failed := s.failed || r.failed))
    ensures Inv(c, p, Deliver(s, r))
  {
    if !r.failed && r.cursor.buffered != [] {
      assert s.returned + r.cursor.buffered == (s.returned + [r.cursor.buffered[0]]) + r.cursor.buffered[1..];
    }
  }

  lemma {:induction false} RunKeepsInv(c: Config, p: Provider, ops: seq<Op>)
    ensures Inv(c, p, Run(c, p, ops))
  {
    if ops != [] {
      var s, op := Run(c, p, ops[..|ops| - 1]), ops[|ops| - 1];
      RunKeepsInv(c, p, ops[..|ops| - 1]);
      if op.Close? {
        CloseOk(c, p, s);
      } else {
        HasNextOk(c, p, s);
        DeliverOk(c, p, s, HasNextResult(c, p, s.cursor));
      }
    }
  }

  // ---------------------------------------------------------------- theorems

  /**
   Whatever the provider answers and whatever the client calls: the entries returned are the
   accepted batches in order, with strictly ascending keys.  They are all of them, up to what
   is still buffered, unless the client stopped early.
   */
  lemma ReturnedIsAccepted(c: Config, p: Provider, ops: seq<Op>)
    ensures var s := Run(c, p, ops);
            var got := Accepted(c, p, s.cursor.calls);
            && s.returned <= got
            && (!s.stopped ==> s.returned + s.cursor.buffered == got)
            && Ascending(KeysOf(s.returned))
  {
    RunKeepsInv(c, p, ops);
    var s := Run(c, p, ops);
    var got := Accepted(c, p, s.cursor.calls);
    AcceptedAscending(c, p, s.cursor.calls);
    forall i | 0 < i < |s.returned| ensures Precedes(KeysOf(s.returned)[i - 1], KeysOf(s.returned)[i]) {
      assert Precedes(KeysOf(got)[i - 1], KeysOf(got)[i]);
    }
  }

  /** A run that ends without failure or early close returned exactly the advertised number. */
  lemma CleanEndIsExact(c: Config, p: Provider, ops: seq<Op>)
    requires var s := Run(c, p, ops); s.cursor.exhausted && !s.failed && !s.stopped
    ensures c.exactLength.Some? ==> |Run(c, p, ops).returned| == c.exactLength.value
  {
    RunKeepsInv(c, p, ops);
  }

  /** Such a run has also closed the cursor. */
  lemma CleanEndIsClosed(c: Config, p: Provider, ops: seq<Op>)
    requires var s := Run(c, p, ops); s.cursor.exhausted && !s.failed && !s.stopped
    ensures Run(c, p, ops).cursor.closed
  {
    RunKeepsInv(c, p, ops);
  }

  /**
   Between two client calls no lease is open, so none is while an entry is visible; a batch is
   released only right after it was leased and with its generation, and is so unless an error
   escaped from its copy, when the cursor is cancelled under the lease; and a cursor that was
   closed is not called again.
   */
  lemma NativeProtocol(c: Config, p: Provider, ops: seq<Op>)
    ensures var s := Run(c, p, ops).cursor;
            Disciplined(c, p, true, s.calls) && !Leased(p, s.calls) && (s.closed <==> Ended(p, s.calls))
  {
    RunKeepsInv(c, p, ops);
  }

  /** So every lease is settled by the next call exactly if no copy ran out of memory. */
  lemma SettledIffEnoughMemory(c: Config, p: Provider, ops: seq<Op>)
    ensures var calls := Run(c, p, ops).cursor.calls;
            Disciplined(c, p, false, calls) <==> forall i :: 0 <= i <= |calls| ==> !Escapes(c, p, true, calls[..i])
  {
    RunKeepsInv(c, p, ops);
    SettledIffNothingEscapes(c, p, Run(c, p, ops).cursor.calls);
  }

  /** A provider with one entry, for which there is no memory. */
  function Exhausting(): Provider {
    (calls: seq<Call>) =>
      if EndsWith(calls, NextBatch)
      then Reply(OK, Batch(8, [Descriptor(0, 1, 0, 0, 0)], 8, [7], 0, [], 1, 0), Some(0), true)
      else Reply(OK, EMPTY, None, true)
  }

  /** A call that does not settle the lease before it breaks the strict protocol. */
  lemma CancelUnderLease(c: Config, p: Provider, calls: seq<Call>, more: seq<Call>)
    requires Leased(p, calls) && calls + [Cancel] <= more
    ensures !Disciplined(c, p, false, more)
  {
    var i := |calls|;
    assert more[..i] == calls && more[i] == (calls + [Cancel])[i];
    assert !Allowed(c, p, false, more[..i], more[i]);
  }

  /** Then the cursor is cancelled and closed while the lease is open. */
  lemma LeaseCanBeAbandoned()
    ensures var c, p := Config(Jvm, Byte, Unit, None, 256, 65536, 256), Exhausting();
            var s := Run(c, p, [HasNext]);
            s.failed && s.cursor.calls == [NextBatch, Cancel, CloseCursor] && !Disciplined(c, p, false, s.cursor.calls)
  {
    var c, p := Config(Jvm, Byte, Unit, None, 256, 65536, 256), Exhausting();
    var calls := [NextBatch];
    assert [HasNext][..0] == [] && OPENED.calls + [NextBatch] == calls;
    assert Struck(c, p(calls), None);
    var s := Run(c, p, [HasNext]);
    assert s.cursor.calls == calls + [Cancel] + [CloseCursor];
    CancelUnderLease(c, p, calls, s.cursor.calls);
  }

  /** A failed session, whatever is called next. */
  ghost predicate Final(s: Session, returned: seq<Entry>) {
    s.failed && s.returned == returned && s.cursor.exhausted && s.cursor.buffered == []
  }

  lemma FinalStays(c: Config, p: Provider, s: Session, op: Op, returned: seq<Entry>)
    requires Final(s, returned)
    ensures Final(Do(c, p, s, op), returned)
  {
    if !op.Close? {
      assert HasNextResult(c, p, s.cursor) == Result(s.cursor, false);
    }
  }

  lemma {:induction false} FailureIsFinal(c: Config, p: Provider, ops: seq<Op>, more: seq<Op>)
    requires Run(c, p, ops).failed
    ensures var s := Run(c, p, ops + more);
            s.failed && s.returned == Run(c, p, ops).returned && s.cursor.exhausted && s.cursor.buffered == []
    decreases |more|
  {
    if more == [] {
      assert ops + more == ops;
      RunKeepsInv(c, p, ops);
    } else {
      var all := ops + more;
      assert all[..|all| - 1] == ops + more[..|more| - 1];
      FailureIsFinal(c, p, ops, more[..|more| - 1]);
      FinalStays(c, p, Run(c, p, ops + more[..|more| - 1]), all[|all| - 1], Run(c, p, ops).returned);
    }
  }

  /**
   Batch atomicity: when a leased batch is malformed, cannot be released or runs out of memory,
   the client never sees any of its entries, even if closing the cursor fails as well, and
   `hasNext` is false from then on.
   */
  lemma BatchAtomicity(c: Config, p: Provider, ops: seq<Op>, op: Op, more: seq<Op>)
    requires !op.Close?
    requires var s := Run(c, p, ops).cursor; s.buffered == [] && !s.exhausted
    requires var s := Run(c, p, ops).cursor;
             var asked := s.calls + [NextBatch];
             && Status(p, asked) == OK
             && (!Copyable(c, p(asked), s.previous, s.delivered)
                 || Status(p, asked + [ReleaseBatch(p(asked).batch.generation)]) != OK)
    ensures var s := Run(c, p, ops + [op] + more);
            s.returned == Run(c, p, ops).returned && HasNextResult(c, p, s.cursor) == Result(s.cursor, false)
            && s.cursor.buffered == []
  {
    var all := ops + [op];
    assert all[..|all| - 1] == ops;
    assert Run(c, p, all).failed;
    FailureIsFinal(c, p, all, more);
  }

  // ---------------------------------------------------------------- a failure is a fault of the provider

  lemma CloseExtends(p: Provider, s: Cursor, cancelFirst: bool)
    ensures s.calls <= CloseState(p, s, cancelFirst).cursor.calls
  {
  }

  lemma FailExtends(p: Provider, s: Cursor)
    ensures s.calls <= FailAndClose(p, s).cursor.calls
  {
    CloseExtends(p, s, true);
    CloseExtends(p, CloseState(p, s, true).cursor, true);
  }

  /** Cleaning up a closed cursor makes no call. */
  lemma CleanClosed(p: Provider, s: Cursor)
    requires s.closed
    ensures Clean(p, s).calls == s.calls && Clean(p, s).closed
  {
  }

  /** What the end does: it fails without a call for a bad reply, or closes. */
  lemma FinishCalls(c: Config, p: Provider, s: Cursor, batch: Batch)
    requires !s.closed
    ensures var r := Finish(c, p, s, batch);
            if batch != EMPTY || (c.exactLength.Some? && s.delivered != c.exactLength.value)
            then r.failed && r.cursor.calls == s.calls
            else r.cursor.calls == s.calls + [CloseCursor]
                 && (r.failed <==> Status(p, s.calls + [CloseCursor]) != OK)
  {
    var closing := CloseState(p, s.(exhausted := true), false);
    if !closing.failed {
      CleanClosed(p, closing.cursor);
    }
  }

  /** What a leased batch does: it is released, and the result decides, unless an error escapes. */
  lemma TakeCalls(c: Config, p: Provider, s: Cursor, reply: Reply)
    ensures var r, second := Take(c, p, s, reply), s.calls + [ReleaseBatch(reply.batch.generation)];
            && s.calls <= r.cursor.calls
            && (r.failed <==> !Copyable(c, reply, s.previous, s.delivered) || Status(p, second) != OK)
            && (Copyable(c, reply, s.previous, s.delivered) ==> second <= r.cursor.calls)
            && (!r.failed ==> r.cursor.calls == second)
  {
    FailExtends(p, Asked(Copied(c, s, reply), ReleaseBatch(reply.batch.generation)));
  }

  lemma SecondCall(calls: seq<Call>, second: Call, all: seq<Call>)
    requires calls + [second] <= all
    ensures calls <= all && all[..|calls| + 1] == calls + [second]
  {
  }

  /** A refill fails exactly if it leaves a fault in the history. */
  lemma RefillFaulty(c: Config, p: Provider, s: Cursor, got: seq<Entry>)
    requires AtEnd(c, p, s, got) && Faultless(c, p, false, s.calls) && !EndsWith(s.calls, NextBatch)
    ensures var r := Refill(c, p, s);
            if r.failed then !Faultless(c, p, false, r.cursor.calls)
            else Faultless(c, p, false, r.cursor.calls) && !EndsWith(r.cursor.calls, NextBatch)
  {
    var s1, r := Asked(s, NextBatch), Refill(c, p, s);
    var reply, calls := p(s1.calls), r.cursor.calls;
    assert GoodReply(c, false, reply, got) <==>
           if reply.status == END then reply.batch == EMPTY && (c.exactLength.Some? ==> |got| == c.exactLength.value)
           else reply.status == OK && Copyable(c, reply, s.previous, s.delivered);
    if reply.status == END {
      FinishCalls(c, p, s1, reply.batch);
      if s1.calls + [CloseCursor] <= calls {
        SecondCall(s1.calls, CloseCursor, calls);
      }
    } else if reply.status == OK {
      TakeCalls(c, p, s1, reply);
      if Copyable(c, reply, s.previous, s.delivered) {
        SecondCall(s1.calls, ReleaseBatch(reply.batch.generation), calls);
      }
    } else {
      FailExtends(p, s1);
    }
    if r.failed {
      FaultAt(c, p, false, s.calls, calls);
    } else {
      FaultlessPair(c, p, false, s.calls, calls[|s1.calls|]);
    }
  }

  /** A session that has not failed has seen no fault, and one that has failed has seen one. */
  ghost predicate Explained(c: Config, p: Provider, s: Session) {
    if s.failed then !Faultless(c, p, false, s.cursor.calls)
    else Faultless(c, p, false, s.cursor.calls) && !EndsWith(s.cursor.calls, NextBatch)
  }

  lemma HasNextExplained(c: Config, p: Provider, s: Session)
    requires Inv(c, p, s) && Explained(c, p, s)
    ensures var r := HasNextResult(c, p, s.cursor);
            Explained(c, p, s.(cursor := r.cursor, failed := s.failed || r.failed))
  {
    if s.cursor.buffered == [] && !s.cursor.exhausted {
      RefillFaulty(c, p, s.cursor, s.returned);
      var r := Refill(c, p, s.cursor);
      if r.failed {
        FailExtends(p, r.cursor);
        FaultPersists(c, p, false, r.cursor.calls, FailAndClose(p, r.cursor).cursor.calls);
      }
    }
  }

  lemma CloseExplained(c: Config, p: Provider, s: Session)
    requires Inv(c, p, s) && Explained(c, p, s) && s.cursor.exhausted && !s.stopped
    ensures Explained(c, p, Do(c, p, s, Close))
  {
    var closing := CloseState(p, Abandon(s.cursor), true);
    CloseExtends(p, Abandon(s.cursor), true);
    CloseExtends(p, closing.cursor, true);
    if s.failed {
      FaultPersists(c, p, false, s.cursor.calls, CloseResult(p, s.cursor).cursor.calls);
    } else {
      CleanClosed(p, closing.cursor);
    }
  }

  lemma StoppedStays(c: Config, p: Provider, s: Session, op: Op)
    ensures s.stopped ==> Do(c, p, s, op).stopped
    ensures op.Close? && !s.cursor.exhausted ==> Do(c, p, s, op).stopped
  {
  }

  lemma {:induction false} RunExplained(c: Config, p: Provider, ops: seq<Op>)
    requires !Run(c, p, ops).stopped
    ensures Explained(c, p, Run(c, p, ops))
  {
    if ops != [] {
      var s, op := Run(c, p, ops[..|ops| - 1]), ops[|ops| - 1];
      StoppedStays(c, p, s, op);
      RunExplained(c, p, ops[..|ops| - 1]);
      RunKeepsInv(c, p, ops[..|ops| - 1]);
      if op.Close? {
        CloseExplained(c, p, s);
      } else {
        HasNextExplained(c, p, s);
      }
    }
  }

  /**
   For every provider and every client that does not close early: a call has failed exactly if
   some call of the history shows a fault.  So a truncated iteration is never taken for a whole
   one, and an iteration is never broken off without a reason.
   */
  lemma FailedIffFault(c: Config, p: Provider, ops: seq<Op>)
    requires !Run(c, p, ops).stopped
    ensures Run(c, p, ops).failed <==> !Faultless(c, p, false, Run(c, p, ops).cursor.calls)
  {
    RunExplained(c, p, ops);
  }

  /** The last two calls: the provider reported the end, and the cursor was closed. */
  predicate EndReported(p: Provider, calls: seq<Call>) {
    var n := |calls|;
    n >= 2 && calls[n - 2].NextBatch? && Status(p, calls[..n - 1]) == END
    && calls[n - 1].CloseCursor? && Status(p, calls) == OK
  }

  lemma RefillReportsEnd(c: Config, p: Provider, s: Cursor)
    requires !s.closed && !s.exhausted && !Refill(c, p, s).failed && Refill(c, p, s).cursor.exhausted
    ensures EndReported(p, Refill(c, p, s).cursor.calls)
  {
    var s1 := Asked(s, NextBatch);
    if p(s1.calls).status == END {
      FinishCalls(c, p, s1, p(s1.calls).batch);
      var calls := s.calls + [NextBatch] + [CloseCursor];
      assert calls[..|calls| - 1] == s1.calls;
    } else if p(s1.calls).status == OK {
      TakeCalls(c, p, s1, p(s1.calls));
    }
  }

  lemma EndStaysReported(c: Config, p: Provider, s: Session, op: Op)
    requires s.cursor.exhausted && s.cursor.closed && s.cursor.buffered == []
    ensures Do(c, p, s, op).cursor.calls == s.cursor.calls
  {
    if op.Close? {
      CleanClosed(p, Abandon(s.cursor));
    } else {
      assert HasNextResult(c, p, s.cursor) == Result(s.cursor, false);
    }
  }

  lemma EndBecomesReported(c: Config, p: Provider, s: Session, op: Op)
    requires Inv(c, p, s) && !s.cursor.exhausted
    requires var s' := Do(c, p, s, op); s'.cursor.exhausted && !s'.failed && !s'.stopped
    ensures EndReported(p, Do(c, p, s, op).cursor.calls)
  {
    RefillReportsEnd(c, p, s.cursor);
  }

  /** An iteration that has ended, without a failure or an early close, ended where the provider said so. */
  lemma {:induction false} EndIsReported(c: Config, p: Provider, ops: seq<Op>)
    requires var s := Run(c, p, ops); s.cursor.exhausted && !s.failed && !s.stopped
    ensures EndReported(p, Run(c, p, ops).cursor.calls)
  {
    if ops != [] {
      var s, op := Run(c, p, ops[..|ops| - 1]), ops[|ops| - 1];
      RunKeepsInv(c, p, ops[..|ops| - 1]);
      StoppedStays(c, p, s, op);
      if s.cursor.exhausted {
        EndIsReported(c, p, ops[..|ops| - 1]);
        EndStaysReported(c, p, s, op);
      } else {
        EndBecomesReported(c, p, s, op);
      }
    }
  }

  /** And until then `hasNext` answers true. */
  lemma HasNextDecides(c: Config, p: Provider, ops: seq<Op>)
    requires var s := Run(c, p, ops + [HasNext]); !s.failed && !s.stopped
    ensures var s := Run(c, p, ops + [HasNext]);
            s.cursor.buffered != [] || EndReported(p, s.cursor.calls)
  {
    var all := ops + [HasNext];
    assert all[..|all| - 1] == ops;
    RunKeepsInv(c, p, ops);
    HasNextOk(c, p, Run(c, p, ops));
    if Run(c, p, all).cursor.exhausted {
      EndIsReported(c, p, all);
    }
  }

  // ---------------------------------------------------------------- closing

  /**
   In every reachable state, `close` of an open cursor first cancels and then closes it.  It throws
   exactly if the cancel answers neither `OK` nor `BATCH_IN_USE`, or the close does not answer `OK`;
   in the latter case the cleaner tries both once more, if it has not run before.
   */
  lemma CloseOutcome(c: Config, p: Provider, ops: seq<Op>)
    ensures var s := Run(c, p, ops).cursor;
            var r, asked := CloseResult(p, s), s.calls + [Cancel] + [CloseCursor];
            && r.cursor.exhausted && r.cursor.buffered == []
            && (s.closed ==> !r.failed && r.cursor.calls == s.calls)
            && (!s.closed ==>
                  && (r.failed <==> p(asked).status != 0 || p(s.calls + [Cancel]).status !in {0, 9})
                  && r.cursor.calls == (if p(asked).status == 0 || s.cleaned then asked
                                        else asked + [Cancel] + [CloseCursor]))
  {
  }

  // ---------------------------------------------------------------- the class of the source

  class DictionaryEntryIterator {
    const config: Config
    const provider: Provider
    var calls: seq<Call>
    var buffered: seq<Entry>
    var previous: Option<Key>
    var delivered: nat
    var exhausted: bool
    var closed: bool
    var cleaned: bool

    function View(): Cursor
      reads this
    {
      Cursor(calls, buffered, previous, delivered, exhausted, closed, cleaned)
    }

    constructor (config: Config, provider: Provider)
      ensures View() == OPENED && this.config == config && this.provider == provider
    {
      this.config, this.provider := config, provider;
      calls, buffered, previous, delivered := [], [], None, 0;
      exhausted, closed, cleaned := false, false, false;
    }

    /** A native call: only the history changes. */
    method Invoke(call: Call) returns (reply: Reply)
      modifies this`calls
      ensures calls == old(calls) + [call] && reply == provider(calls)
    {
      calls := calls + [call];
      reply := provider(calls);
    }

    /** `failed` stands for the exception. */
    method CloseNative(cancelFirst: bool) returns (failed: bool)
      modifies this`calls, this`closed
      ensures Result(View(), failed) == CloseState(provider, old(View()), cancelFirst)
    {
      failed := false;
      if closed {
        return;
      }
      if cancelFirst {
        var reply := Invoke(Cancel);
        failed := reply.status != OK && reply.status != BATCH_IN_USE;
      }
      var reply := Invoke(CloseCursor);
      if reply.status != OK {
        failed := true;
      } else {
        closed := true;
      }
    }

    method CleanOnce()
      modifies this`calls, this`closed, this`cleaned
      ensures View() == Clean(provider, old(View()))
    {
      if !cleaned {
        var _ := CloseNative(true);
        cleaned := true;
      }
    }

    method Fail()
      modifies this
      ensures Result(View(), true) == FailAndClose(provider, old(View()))
    {
      var _ := CloseNative(true);
      CleanOnce();
      exhausted, buffered := true, [];
    }

    method FinishBatches(batch: Batch) returns (failed: bool)
      modifies this
      ensures Result(View(), failed) == Finish(config, provider, old(View()), batch)
    {
      if batch != EMPTY {
        return true;
      }
      exhausted := true;
      if config.exactLength.Some? && delivered != config.exactLength.value {
        return true;
      }
      failed := CloseNative(false);
      if !failed {
        CleanOnce();
      }
    }

    /** What `refill` does with a leased batch. */
    method TakeBatch(reply: Reply) returns (failed: bool)
      modifies this
      ensures Result(View(), failed) == Take(config, provider, old(View()), reply)
    {
      var entries, last, total, ok, struck := CopyReply(config, reply, previous, delivered);
      buffered, previous, delivered := buffered + entries, last, total;
      assert View() == Copied(config, old(View()), reply);
      if struck {
        return true;
      }
      var released := Invoke(ReleaseBatch(reply.batch.generation));
      if ok && released.status == OK {
        return false;
      }
      Fail();
      failed := true;
    }

    method RefillBatch() returns (failed: bool)
      modifies this
      ensures Result(View(), failed) == Refill(config, provider, old(View()))
    {
      var reply := Invoke(NextBatch);
      if reply.status == END {
        failed := FinishBatches(reply.batch);
      } else if reply.status != OK {
        Fail();
        failed := true;
      } else {
        failed := TakeBatch(reply);
      }
    }

    method HasNext() returns (more: bool, failed: bool)
      modifies this
      ensures Result(View(), failed) == HasNextResult(config, provider, old(View()))
      ensures more == (buffered != [] && !failed)
    {
      failed := false;
      if buffered == [] && !exhausted {
        failed := RefillBatch();
        if failed {
          Fail();
        }
      }
      more := !failed && buffered != [];
    }

    /** No entry stands for `NoSuchElementException`, or for the failure `HasNext` reported. */
    method Next() returns (entry: Option<Entry>, failed: bool)
      modifies this
      ensures forall s: Session | s.cursor == old(View()) ::
                var after := Do(config, provider, s, Op.Next);
                && View() == after.cursor && (after.failed <==> s.failed || failed)
                && after.returned == (if entry.Some? then s.returned + [entry.value] else s.returned)
    {
      var more;
      more, failed := HasNext();
      if more {
        entry := Some(buffered[0]);
        buffered := buffered[1..];
      } else {
        entry := None;
      }
    }

    method Close() returns (failed: bool)
      modifies this
      ensures Result(View(), failed) == CloseResult(provider, old(View()))
    {
      exhausted, buffered := true, [];
      failed := CloseNative(true);
      CleanOnce();
    }
  }

  // ---------------------------------------------------------------- materialising a snapshot

  /** One `hasNext` of a loop that has seen no failure. */
  method HasNextOnce(it: DictionaryEntryIterator, ghost s: Session)
    returns (more: bool, failed: bool, ghost after: Session)
    requires Inv(it.config, it.provider, s) && s.cursor == it.View() && !s.failed && !s.stopped
    requires Explained(it.config, it.provider, s)
    modifies it
    ensures Inv(it.config, it.provider, after) && after.cursor == it.View() && !after.stopped
    ensures Explained(it.config, it.provider, after)
    ensures after == Do(it.config, it.provider, s, HasNext)
    ensures after.failed == failed && after.returned == s.returned
    ensures more <==> !failed && after.cursor.buffered != []
    ensures !failed && !more ==> after.cursor.exhausted
  {
    HasNextOk(it.config, it.provider, s);
    HasNextExplained(it.config, it.provider, s);
    more, failed := it.HasNext();
    after := s.(cursor := it.View(), failed := failed);
  }

  /** `next` after a `hasNext` that answered true. */
  method NextBuffered(it: DictionaryEntryIterator, ghost s: Session) returns (entry: Entry, ghost after: Session)
    requires Inv(it.config, it.provider, s) && s.cursor == it.View()
    requires !s.failed && !s.stopped && s.cursor.buffered != [] && Explained(it.config, it.provider, s)
    modifies it
    ensures Explained(it.config, it.provider, after)
    ensures Inv(it.config, it.provider, after) && after.cursor == it.View() && !after.stopped && !after.failed
    ensures after == Do(it.config, it.provider, s, Op.Next) && after.returned == s.returned + [entry]
  {
    var r := HasNextResult(it.config, it.provider, s.cursor);
    assert s.(cursor := r.cursor, failed := s.failed || r.failed) == s;
    DeliverOk(it.config, it.provider, s, r);
    after := Do(it.config, it.provider, s, Op.Next);
    var next, failed := it.Next();
    entry := next.value;
  }

  lemma Further(c: Config, p: Provider, ops: seq<Op>, op: Op) returns (more: seq<Op>)
    ensures Run(c, p, more) == Do(c, p, Run(c, p, ops), op)
  {
    more := ops + [op];
    assert more[..|ops|] == ops;
  }

  /** The entries returned so far are bounded by the running total. */
  lemma Bounded(c: Config, p: Provider, s: Session)
    requires Inv(c, p, s) && !s.stopped && s.returned != []
    ensures |s.returned| <= WordMax(c.runtime)
  {
    AcceptedAscending(c, p, s.cursor.calls);
  }

  /** The `close` at the end of a snapshot: it fails, and makes calls, only if there was a failure. */
  method CloseAtEnd(it: DictionaryEntryIterator, ghost s: Session) returns (failed: bool)
    requires Inv(it.config, it.provider, s) && Explained(it.config, it.provider, s)
    requires s.cursor == it.View() && s.cursor.exhausted && !s.stopped
    modifies it
    ensures s.failed <==> !Faultless(it.config, it.provider, false, it.calls)
    ensures !s.failed ==> !failed && it.calls == s.cursor.calls
  {
    CloseExplained(it.config, it.provider, s);
    failed := it.Close();
  }

  /**
   `DictionarySnapshot.materialize`, for any provider: a snapshot is returned exactly if the
   advertised length fits an array and no call shows a fault; it holds the accepted entries in
   ascending order, has the advertised length, and the cursor is closed.
   */
  method Materialize(c: Config, p: Provider)
    returns (ok: bool, ordered: seq<Entry>, calls: seq<Call>, ghost ops: seq<Op>)
    ensures ok <==> (c.exactLength.Some? ==> c.exactLength.value <= 0x7fff_ffff) && Faultless(c, p, false, calls)
    ensures ok ==> ordered == Accepted(c, p, calls) && Ascending(KeysOf(ordered)) && Ended(p, calls)
    ensures ok && c.exactLength.Some? ==> |ordered| == c.exactLength.value
    ensures c.exactLength.None? || c.exactLength.value <= 0x7fff_ffff ==>
              var s := Run(c, p, ops); s.cursor.exhausted && !s.stopped && (s.failed <==> !ok) && s.returned == ordered
  {
    var it := new DictionaryEntryIterator(c, p);
    ordered := [];
    if c.exactLength.Some? && c.exactLength.value > MAX_INT32 {
      var _ := it.Close();
      return false, ordered, it.calls, [];
    }
    ghost var s := BEGUN;
    ops := [];
    var more, failed;
    more, failed, s := HasNextOnce(it, s);
    ops := Further(c, p, ops, HasNext);
    while more
      invariant it.config == c && it.provider == p && fresh(it)
      invariant Inv(c, p, s) && s.cursor == it.View() && !s.stopped && s.failed == failed && s.returned == ordered
      invariant Explained(c, p, s) && s == Run(c, p, ops)
      invariant more <==> !failed && s.cursor.buffered != []
      invariant !failed && !more ==> s.cursor.exhausted
      decreases WordMax(c.runtime) - |ordered|, more
    {
      var entry;
      entry, s := NextBuffered(it, s);
      ops := Further(c, p, ops, Op.Next);
      ordered := ordered + [entry];
      Bounded(c, p, s);
      more, failed, s := HasNextOnce(it, s);
      ops := Further(c, p, ops, HasNext);
    }
    AcceptedAscending(c, p, it.calls);
    assert ordered + [] == ordered;
    var closeFailed := CloseAtEnd(it, s);
    ok, calls := !failed && !closeFailed, it.calls;
  }
}
