/**
 `borrowSemiringValues` of bindings/go/semiring.go as one goroutine runs it: acquire one
 borrow per operand, in order, and give back all of them when one fails.  The interleavings
 of these acquisitions with other goroutines are the subject of `SemiringLifetime`.
 */
module SemiringBorrow {
  import opened AtomicWord
  import opened SemiringLifetime

  /** The words after one borrow per occurrence in `taken`. */
  ghost function AfterBorrowing(words: map<LeaseId, Word>, taken: multiset<LeaseId>): map<LeaseId, int> {
    map l | l in words :: words[l] + taken[l]
  }

  /** All operands exist, are open, and have room for all their occurrences. */
  ghost predicate Borrowable(words: map<LeaseId, Word>, values: seq<LeaseId>) {
    forall v :: v in values ==> v in words && words[v] + multiset(values)[v] < CLOSED_BIT
  }

  lemma PrefixCounts(taken: seq<LeaseId>, k: nat)
    requires k < |taken|
    ensures multiset(taken[..k + 1]) == multiset(taken[..k]) + multiset{taken[k]}
    ensures multiset(taken[..k + 1])[taken[k]] <= multiset(taken)[taken[k]]
  {
    assert taken[..k + 1] == taken[..k] + [taken[k]];
    assert taken == taken[..k + 1] + taken[k + 1..];
  }

  /** Giving back the last of `k + 1` borrows restores the words after `k` borrows. */
  lemma GiveBackOne(words: map<LeaseId, Word>, taken: seq<LeaseId>, k: nat)
    requires k < |taken|
    requires Borrowable(words, taken)
    ensures var l := taken[k];
            var word := AfterBorrowing(words, multiset(taken[..k + 1]))[l];
            && 0 < word < CLOSED_BIT
            && AfterBorrowing(words, multiset(taken[..k]))
               == AfterBorrowing(words, multiset(taken[..k + 1]))[l := word - 1]
  {
    PrefixCounts(taken, k);
    var l, fewer, more := taken[k], multiset(taken[..k]), multiset(taken[..k + 1]);
    assert l in taken;
    assert forall v :: v != l ==> fewer[v] == more[v];
  }

  /** One more borrow fits exactly if its word can be acquired after the ones before. */
  lemma TakeOne(base: map<LeaseId, Word>, taken: seq<LeaseId>, l: LeaseId)
    requires Borrowable(base, taken)
    ensures var words := AfterBorrowing(base, multiset(taken));
            && (l in words && 0 <= words[l] < CLOSED_BIT - 1 <==> Borrowable(base, taken + [l]))
            && (l in words ==> AfterBorrowing(base, multiset(taken + [l])) == words[l := words[l] + 1])
  {
    assert multiset(taken + [l]) == multiset(taken) + multiset{l};
    assert l in taken + [l];
  }

  /** All operands can be borrowed exactly if every prefix of them can. */
  lemma PrefixBorrowable(base: map<LeaseId, Word>, values: seq<LeaseId>, k: nat)
    requires k <= |values| && Borrowable(base, values)
    ensures Borrowable(base, values[..k])
  {
    assert values == values[..k] + values[k..];
    assert multiset(values) == multiset(values[..k]) + multiset(values[k..]);
    forall v | v in values[..k] ensures v in base && base[v] + multiset(values[..k])[v] < CLOSED_BIT {
      assert v in values;
    }
  }

  class Leases {
    var words: map<LeaseId, Word>
    var finishes: nat

    constructor (words: map<LeaseId, Word>)
      ensures this.words == words && finishes == 0
    {
      this.words, finishes := words, 0;
    }

    method Acquire(l: LeaseId) returns (acquired: bool)
      modifies this`words
      ensures acquired <==> l in old(words) && Acquirable(old(words)[l])
      ensures words == if acquired then old(words)[l := Increment(old(words)[l])] else old(words)
    {
      acquired := l in words && Acquirable(words[l]);
      if acquired {
        words := words[l := Increment(words[l])];
      }
    }

    method ReleaseBorrow(l: LeaseId)
      requires l in words
      modifies this
      ensures words == old(words)[l := AddMinusOne(old(words)[l])]
      ensures finishes == old(finishes) + if words[l] == CLOSED_BIT then 1 else 0
    {
      words := words[l := AddMinusOne(words[l])];
      if words[l] == CLOSED_BIT {
        finishes := finishes + 1;
      }
    }

    /** The `release` closure: give the acquired borrows back, last one first. */
    method ReleaseAll(acquired: seq<LeaseId>, ghost base: map<LeaseId, Word>)
      requires words == AfterBorrowing(base, multiset(acquired))
      requires Borrowable(base, acquired)
      modifies this
      ensures words == base && finishes == old(finishes)
    {
      var index := |acquired|;
      assert acquired[..index] == acquired;
      while index > 0
        invariant 0 <= index <= |acquired|
        invariant words == AfterBorrowing(base, multiset(acquired[..index])) && finishes == old(finishes)
      {
        index := index - 1;
        var l := acquired[index];
        GiveBackOne(base, acquired, index);
        ReleaseBorrow(l);
      }
    }

    /**
     Succeeds exactly if every operand can be borrowed as often as it occurs; then each word
     counts its occurrences.  On failure every word is what it was, even when a value occurs
     twice, and no lease was finished on the way.
     */
    method BorrowValues(values: seq<LeaseId>) returns (ok: bool)
      modifies this
      ensures ok <==> Borrowable(old(words), values)
      ensures ok ==> words == AfterBorrowing(old(words), multiset(values))
      ensures !ok ==> words == old(words)
      ensures finishes == old(finishes)
    {
      ghost var base := words;
      var acquired: seq<LeaseId> := [];
      while |acquired| < |values|
        invariant |acquired| <= |values| && acquired == values[..|acquired|]
        invariant words == AfterBorrowing(base, multiset(acquired)) && finishes == old(finishes)
        invariant Borrowable(base, acquired)
        decreases |values| - |acquired|
      {
        var value := values[|acquired|];
        assert values[..|acquired| + 1] == acquired + [value];
        TakeOne(base, acquired, value);
        var got := Acquire(value);
        if !got {
          if Borrowable(base, values) {
            PrefixBorrowable(base, values, |acquired| + 1);
          }
          ReleaseAll(acquired, base);
          return false;
        }
        acquired := acquired + [value];
      }
      assert acquired == values;
      return true;
    }
  }
}
