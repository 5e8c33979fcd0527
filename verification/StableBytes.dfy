/**
 Two-phase reads of provider bytes: a size query, then attempts to read into a buffer of the
 size last reported.

 Writers: `write_bytes` (interop.hpp) and `ProviderOutput.WriteBytes` (HostResources.cs) copy what
 fits; so does `_write_bytes` (bindings/python), but only of at most 16 MiB (`_provider_bytes`);
 `callbackBytes` (bindings/go/callbacks.go) has that limit and copies everything or nothing.
 Readers: the `stable_bytes` loops of C++, Python and .NET, and `abiReadBytes`
 (bindings/go/abi.go), which tries once.

 A reader faces a provider that answers each call with any status, counts and bytes.  A writer
 is such a provider; its encoding may change between calls, and call `i` is answered from `e(i)`.
 */
module StableBytes {
  import opened Interop

  newtype Byte = x: int | 0 <= x < 0x100

  const MAX_BYTES: nat := 16 * 1024 * 1024
  const ATTEMPTS: nat := 3

  /** C++ and .NET; Python; Go. */
  datatype Writer = Partial | LimitedPartial | AllOrNothing

  predicate Refuses(w: Writer, size: nat) {
    !w.Partial? && size > MAX_BYTES
  }

  type Encodings = nat -> seq<Byte>

  /** How many bytes a writer puts into a buffer. */
  function WrittenCount(w: Writer, size: nat, capacity: nat): nat {
    if size <= capacity then size else if w.AllOrNothing? then 0 else capacity
  }

  /** What a call leaves behind: the status, both counts, and the bytes of the buffer. */
  datatype Answer = Answer(status: nat, written: nat, required: nat, content: nat -> Byte)

  /** The bytes a reader takes if it trusts the count. */
  function Prefix(a: Answer): seq<Byte> {
    seq(a.written, i requires 0 <= i < a.written => a.content(i))
  }

  /** The answer of a writer to a call with a buffer of `capacity` bytes. */
  function Honest(w: Writer, data: seq<Byte>, capacity: nat): Answer {
    if Refuses(w, |data|) then Answer(LIMIT_EXCEEDED, 0, 0, (i: nat) => 0)
    else Answer(OK, WrittenCount(w, |data|, capacity), |data|, (i: nat) => if i < |data| then data[i] else 0)
  }

  lemma HonestPrefix(w: Writer, data: seq<Byte>, capacity: nat)
    requires !Refuses(w, |data|)
    ensures var a := Honest(w, data, capacity);
            a.written <= |data| && Prefix(a) == data[..a.written] && (|data| <= capacity ==> Prefix(a) == data)
  {
  }

  /** The writers, in place. */
  method Write(w: Writer, data: seq<Byte>, output: array<Byte>) returns (status: nat, written: nat, required: nat)
    modifies output
    ensures var a := Honest(w, data, output.Length);
            && status == a.status && written == a.written && required == a.required
            && written <= output.Length && output[..written] == Prefix(a)
    ensures status == if !w.Partial? && |data| > 0x100_0000 then 7 else 0
    ensures status == 0 ==>
              && required == |data| && output[..written] == data[..written]
              && written == (if |data| <= output.Length then |data| else if w.AllOrNothing? then 0 else output.Length)
    ensures output[written..] == old(output[..])[written..]
  {
    written, required := 0, 0;
    if Refuses(w, |data|) {
      return LIMIT_EXCEEDED, 0, 0;
    }
    status, required := OK, |data|;
    if |data| <= output.Length {
      written := |data|;
    } else if !w.AllOrNothing? {
      written := output.Length;
    }
    HonestPrefix(w, data, output.Length);
    for index := 0 to written
      invariant output[..index] == data[..index] && output[index..] == old(output[..])[index..]
    {
      output[index] := data[index];
      assert output[..index + 1] == output[..index] + [data[index]];
      assert output[index + 1..] == old(output[..])[index..][1..];
    }
  }

  /** Call `i` meets the size the call before reported, and no size so far was excessive. */
  predicate Settles(e: Encodings, i: nat)
    requires i > 0
  {
    |e(i)| <= |e(i - 1)| && forall j :: 0 <= j < i ==> |e(j)| <= MAX_BYTES
  }

  /** What a two-phase read is meant to return: the first encoding that settles in three attempts. */
  function Settled(e: Encodings): Option<seq<Byte>> {
    if Settles(e, 1) then Some(e(1))
    else if Settles(e, 2) then Some(e(2))
    else if Settles(e, 3) then Some(e(3))
    else None
  }

  /** The first `attempts` attempts found a size that is not excessive, but smaller than the next one. */
  predicate Growing(e: Encodings, attempts: nat) {
    forall j :: 0 <= j < attempts ==> |e(j)| <= MAX_BYTES && |e(j + 1)| > |e(j)|
  }

  lemma GrowingNext(e: Encodings, attempts: nat)
    requires Growing(e, attempts) && |e(attempts)| <= MAX_BYTES && |e(attempts + 1)| > |e(attempts)|
    ensures Growing(e, attempts + 1)
  {
  }

  /** An excessive size, or three sizes that grew, end the read. */
  lemma NeverSettles(e: Encodings, attempts: nat)
    requires attempts <= ATTEMPTS && Growing(e, attempts)
    requires attempts == ATTEMPTS || |e(attempts)| > MAX_BYTES
    ensures Settled(e) == None
  {
    assert attempts >= 1 ==> |e(0 + 1)| > |e(0)|;
    assert attempts >= 2 ==> |e(1 + 1)| > |e(1)|;
    assert attempts >= 3 ==> |e(2 + 1)| > |e(2)|;
  }

  /** The first attempt that settles is the one to return. */
  lemma SettlesFirst(e: Encodings, attempts: nat)
    requires attempts < ATTEMPTS && Growing(e, attempts)
    requires |e(attempts)| <= MAX_BYTES && |e(attempts + 1)| <= |e(attempts)|
    ensures Settled(e) == Some(e(attempts + 1))
  {
    assert Settles(e, attempts + 1);
    assert attempts >= 1 ==> |e(0 + 1)| > |e(0)|;
    assert attempts >= 2 ==> |e(1 + 1)| > |e(1)|;
  }

  // ---------------------------------------------------------------- the retrying readers

  /** An untrusted provider: any answer to any call, given its number and the buffer size. */
  type Provider = (nat, nat) -> Answer

  /** The attempts from `attempt` on, with a buffer of `required` bytes. */
  function Attempt(p: Provider, attempt: nat, required: nat): Option<seq<Byte>>
    decreases ATTEMPTS - attempt
  {
    if attempt >= ATTEMPTS || required > MAX_BYTES then None
    else
      var a := p(attempt + 1, required);
      if a.status != OK || a.written > required || a.written > a.required then None
      else if a.required > required then Attempt(p, attempt + 1, a.required)
      else if a.written != a.required then None
      else Some(Prefix(a))
  }

  function Stable(p: Provider): Option<seq<Byte>> {
    if p(0, 0).status != OK || p(0, 0).written != 0 then None else Attempt(p, 0, p(0, 0).required)
  }

  /**
   The retry loop of C++, Python and .NET, against any provider: at most four calls, and no
   buffer beyond the defensive limit.
   */
  method ReadStable(p: Provider) returns (r: Option<seq<Byte>>, calls: nat, largest: nat)
    ensures r == Stable(p) && calls <= ATTEMPTS + 1 && largest <= MAX_BYTES
  {
    var answer := p(0, 0);
    calls, largest := 1, 0;
    if answer.status != OK || answer.written != 0 {
      return None, calls, largest;
    }
    var required: nat := answer.required;
    for attempt := 0 to ATTEMPTS
      invariant calls == attempt + 1 && largest <= MAX_BYTES
      invariant Stable(p) == Attempt(p, attempt, required)
    {
      if required > MAX_BYTES {
        return None, calls, largest;
      }
      answer := p(attempt + 1, required);
      calls, largest := calls + 1, if required > largest then required else largest;
      if answer.status != OK || answer.written > required || answer.written > answer.required {
        return None, calls, largest;
      }
      if answer.required <= required {
        if answer.written != answer.required {
          return None, calls, largest;
        }
        return Some(Prefix(answer)), calls, largest;
      }
      required := answer.required;
    }
    return None, calls, largest;
  }

  /** `bytes` is what call `i` wrote into a buffer of `capacity` bytes, and all it said it had. */
  ghost predicate DeliveredBy(p: Provider, i: nat, capacity: nat, bytes: seq<Byte>) {
    var a := p(i, capacity);
    a.status == 0 && a.written == a.required <= capacity <= 0x100_0000 && bytes == Prefix(a)
  }

  lemma {:induction false} AttemptMeaning(p: Provider, attempt: nat, required: nat)
    ensures var r := Attempt(p, attempt, required);
            r.Some? ==> exists i, c :: attempt < i <= ATTEMPTS && DeliveredBy(p, i, c, r.value)
    decreases ATTEMPTS - attempt
  {
    if attempt < ATTEMPTS && required <= MAX_BYTES {
      var a := p(attempt + 1, required);
      if a.status == OK && a.written <= required && a.written <= a.required {
        if a.required > required {
          AttemptMeaning(p, attempt + 1, a.required);
        } else if a.written == a.required {
          assert DeliveredBy(p, attempt + 1, required, Prefix(a));
        }
      }
    }
  }

  /** Whatever the provider answers, a result is what one single call delivered, completely. */
  lemma StableMeaning(p: Provider)
    ensures Stable(p).Some? ==>
              exists i, c :: 1 <= i <= ATTEMPTS && DeliveredBy(p, i, c, Stable(p).value)
                             && |Stable(p).value| <= MAX_BYTES
  {
    AttemptMeaning(p, 0, p(0, 0).required);
  }

  /** The buffer size of call `i`, if the read gets that far: what the call before said it needs. */
  function BufferSize(p: Provider, i: nat): nat {
    if i == 0 then 0 else p(i - 1, BufferSize(p, i - 1)).required
  }

  /** Call `i` has sound counts, and more bytes than the buffer holds. */
  predicate Grew(p: Provider, i: nat) {
    var a := p(i, BufferSize(p, i));
    a.status == 0 && a.written <= BufferSize(p, i) < a.required && BufferSize(p, i) <= 0x100_0000
  }

  /** The calls from `from` up to call `k` grew. */
  predicate GrowsUntil(p: Provider, from: nat, k: nat) {
    forall i :: from <= i < k ==> Grew(p, i)
  }

  /** A call after `attempt` delivers these bytes, and the ones between grew. */
  ghost predicate DeliversAfter(p: Provider, attempt: nat, bytes: seq<Byte>) {
    exists k :: attempt < k <= 3 && GrowsUntil(p, attempt + 1, k) && DeliveredBy(p, k, BufferSize(p, k), bytes)
  }

  /** The next call delivers them, or grows and a later one does. */
  lemma DeliversNext(p: Provider, attempt: nat, bytes: seq<Byte>)
    requires attempt < 3
    ensures DeliversAfter(p, attempt, bytes) <==>
            || DeliveredBy(p, attempt + 1, BufferSize(p, attempt + 1), bytes)
            || (Grew(p, attempt + 1) && DeliversAfter(p, attempt + 1, bytes))
  {
    var next := attempt + 1;
    if k :| attempt < k <= 3 && GrowsUntil(p, next, k) && DeliveredBy(p, k, BufferSize(p, k), bytes) {
      if k > next {
        assert Grew(p, next) && GrowsUntil(p, next + 1, k);
      }
    }
    if DeliveredBy(p, next, BufferSize(p, next), bytes) {
      assert GrowsUntil(p, next, next);
    }
    if Grew(p, next) && DeliversAfter(p, next, bytes) {
      var k :| next < k <= 3 && GrowsUntil(p, next + 1, k) && DeliveredBy(p, k, BufferSize(p, k), bytes);
      assert GrowsUntil(p, next, k);
    }
  }

  lemma {:induction false} AttemptIff(p: Provider, attempt: nat, bytes: seq<Byte>)
    requires attempt <= ATTEMPTS
    ensures Attempt(p, attempt, BufferSize(p, attempt + 1)) == Some(bytes) <==> DeliversAfter(p, attempt, bytes)
    decreases ATTEMPTS - attempt
  {
    if attempt < ATTEMPTS {
      assert BufferSize(p, attempt + 2) == p(attempt + 1, BufferSize(p, attempt + 1)).required;
      AttemptIff(p, attempt + 1, bytes);
      DeliversNext(p, attempt, bytes);
    }
  }

  /**
   A read succeeds exactly if the size query writes nothing, and one of three calls, after others
   that each asked for more, delivers all it has into the buffer of the size last asked for.
   */
  lemma StableIff(p: Provider, bytes: seq<Byte>)
    ensures Stable(p) == Some(bytes) <==>
            && p(0, 0).status == 0 && p(0, 0).written == 0
            && DeliversAfter(p, 0, bytes)
  {
    assert BufferSize(p, 0) == 0 && BufferSize(p, 1) == p(0, 0).required;
    AttemptIff(p, 0, bytes);
  }

  function Writing(w: Writer, e: Encodings): Provider {
    (i: nat, capacity: nat) => Honest(w, e(i), capacity)
  }

  lemma {:induction false} WritingAttempt(w: Writer, e: Encodings, attempt: nat)
    requires attempt <= ATTEMPTS && Growing(e, attempt)
    ensures Attempt(Writing(w, e), attempt, |e(attempt)|) == Settled(e)
    decreases ATTEMPTS - attempt
  {
    if attempt == ATTEMPTS || |e(attempt)| > MAX_BYTES {
      NeverSettles(e, attempt);
    } else if |e(attempt + 1)| <= |e(attempt)| {
      SettlesFirst(e, attempt);
      HonestPrefix(w, e(attempt + 1), |e(attempt)|);
    } else {
      GrowingNext(e, attempt);
      WritingAttempt(w, e, attempt + 1);
      if Refuses(w, |e(attempt + 1)|) {
        NeverSettles(e, attempt + 1);
      }
    }
  }

  /** Of any of the writers the readers get what `Settled` says: whole, or not at all. */
  lemma WritingSettles(w: Writer, e: Encodings)
    ensures Stable(Writing(w, e)) == Settled(e)
  {
    if Refuses(w, |e(0)|) {
      NeverSettles(e, 0);
    }
    WritingAttempt(w, e, 0);
  }

  /**
   So a read succeeds exactly if one of three attempts settles; the result is one encoding as
   a whole, the first that settles, and within the defensive limit.
   */
  lemma SettledMeaning(e: Encodings)
    ensures Settled(e).Some? <==> exists i :: 1 <= i <= ATTEMPTS && Settles(e, i)
    ensures Settled(e).Some? ==>
              exists i :: 1 <= i <= ATTEMPTS && Settles(e, i) && Settled(e).value == e(i) && |e(i)| <= MAX_BYTES
                          && forall j :: 1 <= j < i ==> !Settles(e, j)
  {
    if Settles(e, 1) {
    } else if Settles(e, 2) {
      assert forall j :: 1 <= j < 2 ==> !Settles(e, j);
    } else if Settles(e, 3) {
      assert forall j :: 1 <= j < 3 ==> !Settles(e, j);
    } else {
      assert forall i :: 1 <= i <= 3 ==> !Settles(e, i);
    }
  }

  /** A provider whose encoding does not change is read at the first attempt, up to the limit. */
  lemma ConstantSettles(data: seq<Byte>)
    ensures Settled(_ => data) == if |data| <= MAX_BYTES then Some(data) else None
  {
    var e: Encodings := _ => data;
    assert |data| <= MAX_BYTES ==> Settles(e, 1);
    assert |data| > MAX_BYTES ==> |e(0)| > MAX_BYTES;
  }

  // ---------------------------------------------------------------- the Go reader

  /** What a single exact attempt returns. */
  function Exact(e: Encodings): Option<seq<Byte>> {
    if |e(0)| > MAX_BYTES then None
    else if |e(0)| == 0 then Some([])
    else if |e(1)| == |e(0)| then Some(e(1))
    else None
  }

  /** The Go reader against any provider. */
  function ExactFrom(p: Provider): Option<seq<Byte>> {
    var size := p(0, 0);
    if size.status != OK || size.written != 0 || size.required > MAX_BYTES then None
    else if size.required == 0 then Some([])
    else
      var a := p(1, size.required);
      if a.status != OK || a.written != size.required || a.required != size.required then None else Some(Prefix(a))
  }

  method ReadExact(p: Provider) returns (r: Option<seq<Byte>>, calls: nat)
    ensures r == ExactFrom(p) && calls <= 2
    ensures r.Some? && r.value != [] ==> DeliveredBy(p, 1, p(0, 0).required, r.value)
  {
    var answer := p(0, 0);
    calls := 1;
    if answer.status != OK || answer.written != 0 || answer.required > MAX_BYTES {
      return None, calls;
    }
    var required := answer.required;
    if required == 0 {
      return Some([]), calls;
    }
    answer := p(1, required);
    calls := 2;
    if answer.status != OK || answer.written != required || answer.required != required {
      return None, calls;
    }
    return Some(Prefix(answer)), calls;
  }

  /**
   It succeeds exactly if the size query answers with no bytes and a size within the limit, and
   either the size is zero, which gives the empty result, or one more call delivers exactly that many.
   */
  lemma ExactIff(p: Provider, bytes: seq<Byte>)
    ensures ExactFrom(p) == Some(bytes) <==>
            && p(0, 0).status == 0 && p(0, 0).written == 0 && p(0, 0).required <= 0x100_0000
            && if p(0, 0).required == 0 then bytes == []
               else DeliveredBy(p, 1, p(0, 0).required, bytes) && |bytes| == p(0, 0).required
  {
  }

  /** Of any of the writers it gets what `Exact` says. */
  lemma WritingExact(w: Writer, e: Encodings)
    ensures ExactFrom(Writing(w, e)) == Exact(e)
  {
    if |e(0)| <= MAX_BYTES && !Refuses(w, |e(1)|) {
      HonestPrefix(w, e(1), |e(0)|);
    }
  }

  /**
   The Go reader is the stricter one: except for an encoding that was empty when its size was
   asked, where it does not look again, whatever it returns the other readers return too.
   */
  lemma ExactIsStricter(e: Encodings)
    ensures Exact(e).Some? && e(0) != [] ==> Settled(e) == Exact(e)
    ensures e(0) == [] ==> Exact(e) == Some([])
    ensures Settled(e).Some? && Exact(e) != Settled(e) <==>
            Settled(e).Some? && (if e(0) == [] then Settled(e).value != [] else |e(1)| != |e(0)|)
  {
    if 0 < |e(0)| <= MAX_BYTES && |e(1)| == |e(0)| {
      assert Settles(e, 1);
    }
    if Settled(e).Some? {
      SettledMeaning(e);
      assert |e(0)| <= MAX_BYTES;
    }
  }
}
