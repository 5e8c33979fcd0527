/**
 The 64-bit lease word shared by the Go owners: bit 63 is the close bit, the low 63 bits
 count the borrows in flight.  The functions below are the machine arithmetic of the code
 (masking, `|`, `+ 1`, `Add(^uint64(0))`) on words `0 <= w < 2^64`; the lemmas show that it
 refines the pair (closed, count) that the code means by it.
 */
module AtomicWord {
  import opened Interop

  const CLOSED_BIT: int := 0x8000_0000_0000_0000

  type Word = w: int | 0 <= w < TWO_64

  /** `state & resourceClosedBit != 0`. */
  predicate HasClosedBit(w: Word) {
    w >= CLOSED_BIT
  }

  /** `state | resourceClosedBit`. */
  function SetClosedBit(w: Word): Word {
    if HasClosedBit(w) then w else w + CLOSED_BIT
  }

  /** `state + 1` in uint64 arithmetic. */
  function Increment(w: Word): Word {
    if w == TWO_64 - 1 then 0 else w + 1
  }

  /** `state.Add(^uint64(0))`: add 2^64 - 1 and wrap. */
  function AddMinusOne(w: Word): Word {
    if w == 0 then TWO_64 - 1 else w - 1
  }

  /** The case distinctions above are the mask of bit 63 and the wrap-around modulo 2^64. */
  lemma WordArithmetic(w: Word)
    ensures HasClosedBit(w) <==> (w / CLOSED_BIT) % 2 == 1
    ensures Decode(w).count == w % CLOSED_BIT
    ensures Increment(w) == (w + 1) % TWO_64
    ensures AddMinusOne(w) == (w + (TWO_64 - 1)) % TWO_64
  {
  }

  /** What `acquire` tests before it tries its compare-and-swap. */
  predicate Acquirable(w: Word) {
    !HasClosedBit(w) && w != CLOSED_BIT - 1
  }

  /** The abstract lease: closed or not, and how many borrows are in flight. */
  datatype Lease = Lease(closed: bool, count: nat)

  function Encode(l: Lease): Word
    requires l.count < CLOSED_BIT
  {
    (if l.closed then CLOSED_BIT else 0) + l.count
  }

  function Decode(w: Word): Lease {
    Lease(HasClosedBit(w), if HasClosedBit(w) then w - CLOSED_BIT else w)
  }

  /** The packing is a bijection between words and (closed, 63-bit count). */
  lemma PackingIsExact(w: Word, l: Lease)
    requires l.count < CLOSED_BIT
    ensures Decode(w).count < CLOSED_BIT
    ensures Encode(Decode(w)) == w
    ensures Decode(Encode(l)) == l
  {
  }

  /** Every word operation is the intended operation on (closed, count). */
  lemma OperationsRefine(l: Lease)
    requires l.count < CLOSED_BIT
    ensures HasClosedBit(Encode(l)) == l.closed
    ensures Acquirable(Encode(l)) <==> !l.closed && l.count + 1 < CLOSED_BIT
    ensures l.count + 1 < CLOSED_BIT ==> Increment(Encode(l)) == Encode(Lease(l.closed, l.count + 1))
    ensures l.count > 0 ==> AddMinusOne(Encode(l)) == Encode(Lease(l.closed, l.count - 1))
    ensures SetClosedBit(Encode(l)) == Encode(Lease(true, l.count))
    ensures Encode(l) == CLOSED_BIT <==> l.closed && l.count == 0
  {
  }
}
