/** Safety of `SemiringLifetime` over all interleavings. */
module SemiringSafety {
  import opened Interop
  import opened AtomicWord
  import opened SemiringLifetime
  import opened SemiringInvariant

  lemma SumFirst(gs: seq<Goroutine>, x: Claim)
    requires gs != []
    ensures Sum(gs)[x] == Count(gs[0], x) + Sum(gs[1..])[x]
  {
  }

  lemma {:induction false} SumReplace(gs: seq<Goroutine>, i: nat, g: Goroutine, x: Claim)
    requires i < |gs|
    ensures Count(gs[i], x) <= Sum(gs)[x]
    ensures Sum(gs[i := g])[x] == Sum(gs)[x] - Count(gs[i], x) + Count(g, x)
  {
    SumFirst(gs, x);
    SumFirst(gs[i := g], x);
    if i == 0 {
      assert gs[0 := g][1..] == gs[1..];
    } else {
      SumReplace(gs[1..], i - 1, g, x);
      assert gs[i := g][1..] == gs[1..][i - 1 := g];
    }
  }

  lemma {:induction false} IdleClaimsNothing(gs: seq<Goroutine>, x: Claim)
    requires forall i :: 0 <= i < |gs| ==> gs[i].pc == Idle && gs[i].held == []
    requires x != Nothing
    ensures Sum(gs)[x] == 0
  {
    if gs != [] {
      assert gs[0].pc == Idle;
      forall i | 0 <= i < |gs[1..]| ensures gs[1..][i].pc == Idle && gs[1..][i].held == [] {
        assert gs[1..][i] == gs[i + 1];
      }
      IdleClaimsNothing(gs[1..], x);
    }
  }

  /** Some goroutine makes every claim that is made. */
  lemma {:induction false} ClaimantExists(gs: seq<Goroutine>, x: Claim) returns (i: nat)
    requires Sum(gs)[x] > 0
    ensures i < |gs| && Count(gs[i], x) > 0
  {
    SumFirst(gs, x);
    if Count(gs[0], x) > 0 {
      i := 0;
    } else {
      i := ClaimantExists(gs[1..], x);
      i := i + 1;
    }
  }

  // ---------------------------------------------------------------- the invariant

  lemma InitBalanced(c: Tally)
    requires forall x :: x != Nothing ==> c[x] == 0
    ensures Balanced(Init(0).shared, c)
  {
  }

  lemma InitTally(n: nat)
    ensures forall x :: x != Nothing ==> Sum(Init(n).goroutines)[x] == 0
  {
    forall x | x != Nothing ensures Sum(Init(n).goroutines)[x] == 0 {
      IdleClaimsNothing(Init(n).goroutines, x);
    }
  }

  lemma InitGoroutinesOk(n: nat, i: nat)
    requires i < n
    ensures GoroutineOk(Init(n).shared.leases.Keys, Init(n).goroutines[i])
  {
  }

  lemma InitInv(n: nat)
    ensures Inv(Init(n))
  {
    InitTally(n);
    InitBalanced(Sum(Init(n).goroutines));
    forall i | 0 <= i < n ensures GoroutineOk(Init(n).shared.leases.Keys, Init(n).goroutines[i]) {
      InitGoroutinesOk(n, i);
    }
  }

  /** Claims are only ever made on existing leases. */
  lemma ClaimedLease(s: Shared, c: Tally, l: LeaseId)
    requires Balanced(s, c) && !Unclaimed(c, l)
    ensures Local(s, c, l)
  {
    assert l !in s.leases ==> Unclaimed(c, l);
  }

  /** A borrow in flight keeps its lease, and so the core and the resource, alive. */
  lemma BorrowKeepsAlive(s: Shared, c: Tally, l: LeaseId)
    requires Balanced(s, c) && c[Borrow(l)] > 0
    ensures l in s.leases && l in s.live && s.references > 0 && s.ledger.resourceReleases == 0
  {
    ClaimedLease(s, c, l);
  }

  // ---------------------------------------------------------------- one update at one lease

  lemma BorrowLocal(s: Shared, c: Tally, c': Tally, l: LeaseId)
    requires Local(s, c, l) && Acquirable(s.leases[l].word) && Moves(c, c', Nothing, Borrow(l))
    ensures Local(SetWord(s, l, Increment(s.leases[l].word)), c', l)
  {
  }

  /** The last borrow of a closed lease inherits the duty to finish it. */
  lemma ReturnLocal(s: Shared, c: Tally, c': Tally, l: LeaseId)
    requires Local(s, c, l) && c[Borrow(l)] > 0
    requires Moves(c, c', Borrow(l),
                   if AddMinusOne(s.leases[l].word) == CLOSED_BIT then Entering(l) else Nothing)
    ensures Local(SetWord(s, l, AddMinusOne(s.leases[l].word)), c', l)
  {
  }

  lemma CloseLocal(s: Shared, c: Tally, c': Tally, l: LeaseId)
    requires Local(s, c, l) && !HasClosedBit(s.leases[l].word)
    requires Moves(c, c', Nothing, if s.leases[l].word == 0 then Entering(l) else Nothing)
    ensures Local(SetWord(s, l, SetClosedBit(s.leases[l].word)), c', l)
  {
  }

  /** A lease's once never suppresses: whoever enters it finds it unfired. */
  lemma FinishLocal(s: Shared, c: Tally, c': Tally, l: LeaseId)
    requires Local(s, c, l) && c[Entering(l)] > 0
    requires Moves(c, c', Entering(l), if l.ValueLease? then Freeing(l) else Dropping(l))
    ensures !s.leases[l].finished
    ensures Local(s.(leases := s.leases[l := s.leases[l].(finished := true)]), c', l)
  {
  }

  /** The value's release function gives back a token not released before. */
  lemma FreeLocal(s: Shared, c: Tally, c': Tally, l: LeaseId)
    requires Local(s, c, l) && c[Freeing(l)] > 0 && Moves(c, c', Freeing(l), Dropping(l))
    requires l.ValueLease? ==> l.id < s.ledger.issued
    ensures l.ValueLease? && l.id !in s.ledger.spent && s.ledger.resourceReleases == 0
    ensures Local(Report(s, ReleaseToken(l.id)), c', l)
  {
  }

  /** The lease that drops the count to zero inherits the duty to release the resource. */
  lemma DropLocal(s: Shared, c: Tally, c': Tally, l: LeaseId)
    requires Local(s, c, l) && c[Dropping(l)] > 0
    requires Moves(c, c', Dropping(l), if s.references == 1 then EnteringCore else Nothing)
    ensures l in s.live && s.references > 0
    ensures Local(s.(references := s.references - 1, live := s.live - {l}), c', l)
  {
    assert |s.live - {l}| == |s.live| - 1;
  }

  lemma OtherLease(s: Shared, c: Tally, s': Shared, c': Tally, l: LeaseId, minus: Claim, plus: Claim, k: LeaseId)
    requires OnlyAt(s, s', l) && Moves(c, c', minus, plus) && Concerns(minus, l) && Concerns(plus, l)
    requires k in s.leases && k != l && LeaseOk(s, c, k)
    ensures LeaseOk(s', c', k)
  {
    assert k.ValueLease? ==> (k.id in s'.ledger.spent <==> k.id in s.ledger.spent) by {
      if k.ValueLease? { assert ValueLease(k.id) != l; }
    }
  }

  lemma OtherToken(s: Shared, c: Tally, s': Shared, c': Tally, l: LeaseId, minus: Claim, plus: Claim, t: nat)
    requires OnlyAt(s, s', l) && Moves(c, c', minus, plus) && Concerns(minus, l) && Concerns(plus, l)
    requires TokenOk(s, c, t)
    ensures TokenOk(s', c', t)
  {
  }

  lemma OtherLeases(s: Shared, c: Tally, s': Shared, c': Tally, l: LeaseId, minus: Claim, plus: Claim)
    requires OnlyAt(s, s', l) && Moves(c, c', minus, plus) && Concerns(minus, l) && Concerns(plus, l)
    requires forall k :: k in s.leases ==> LeaseOk(s, c, k)
    ensures forall k :: k in s'.leases && k != l ==> LeaseOk(s', c', k)
  {
    forall k | k in s'.leases && k != l ensures LeaseOk(s', c', k) {
      assert LeaseOk(s, c, k);
      OtherLease(s, c, s', c', l, minus, plus, k);
    }
  }

  lemma OtherTokens(s: Shared, c: Tally, s': Shared, c': Tally, l: LeaseId, minus: Claim, plus: Claim)
    requires OnlyAt(s, s', l) && Moves(c, c', minus, plus) && Concerns(minus, l) && Concerns(plus, l)
    requires forall t: nat :: TokenOk(s, c, t)
    requires forall k :: k !in s.leases ==> Unclaimed(c, k)
    ensures forall t: nat :: TokenOk(s', c', t)
    ensures forall k :: k !in s'.leases ==> Unclaimed(c', k)
  {
    forall t: nat ensures TokenOk(s', c', t) {
      assert TokenOk(s, c, t);
      OtherToken(s, c, s', c', l, minus, plus, t);
    }
    forall k | k !in s'.leases ensures Unclaimed(c', k) {
      assert Unclaimed(c, k);
    }
  }

  /** An update of one lease that is right locally keeps the whole balance. */
  lemma TouchOne(s: Shared, c: Tally, s': Shared, c': Tally, l: LeaseId, minus: Claim, plus: Claim)
    requires Balanced(s, c) && OnlyAt(s, s', l) && Local(s', c', l)
    requires Moves(c, c', minus, plus) && Concerns(minus, l) && Concerns(plus, l)
    ensures Balanced(s', c')
  {
    OtherLeases(s, c, s', c', l, minus, plus);
    OtherTokens(s, c, s', c', l, minus, plus);
  }

  // ---------------------------------------------------------------- one update at the core

  /** Claims that have nothing to do with any lease. */
  ghost predicate Leaseless(x: Claim) {
    x.EnteringCore? || x.FreeingCore? || x.Nothing? || x.Holding?
  }

  ghost predicate SameLeaseState(s: Shared, s': Shared) {
    && s'.leases == s.leases && s'.live == s.live
    && (forall t :: ValueLease(t) in s.leases ==> (t in s'.ledger.spent <==> t in s.ledger.spent))
  }

  lemma SameLease(s: Shared, c: Tally, s': Shared, c': Tally, minus: Claim, plus: Claim, k: LeaseId)
    requires SameLeaseState(s, s') && Moves(c, c', minus, plus) && Leaseless(minus) && Leaseless(plus)
    requires k in s.leases && LeaseOk(s, c, k)
    ensures LeaseOk(s', c', k)
  {
    assert k.ValueLease? ==> ValueLease(k.id) in s.leases;
  }

  /** An update that leaves the leases alone keeps them right. */
  lemma SameLeases(s: Shared, c: Tally, s': Shared, c': Tally, minus: Claim, plus: Claim)
    requires SameLeaseState(s, s') && Moves(c, c', minus, plus) && Leaseless(minus) && Leaseless(plus)
    requires forall k :: k in s.leases ==> LeaseOk(s, c, k)
    requires forall k :: k !in s.leases ==> Unclaimed(c, k)
    ensures forall k :: k in s'.leases ==> LeaseOk(s', c', k)
    ensures forall k :: k !in s'.leases ==> Unclaimed(c', k)
  {
    forall k | k in s'.leases ensures LeaseOk(s', c', k) {
      SameLease(s, c, s', c', minus, plus, k);
    }
    forall k | k !in s'.leases ensures Unclaimed(c', k) {
      assert Unclaimed(c, k);
    }
  }

  lemma SameTokens(s: Shared, c: Tally, s': Shared, c': Tally, minus: Claim, plus: Claim)
    requires s'.leases == s.leases && s'.ledger.issued == s.ledger.issued && s'.ledger.spent == s.ledger.spent
    requires Moves(c, c', minus, plus) && !minus.Holding? && !plus.Holding?
    requires forall t: nat :: TokenOk(s, c, t)
    ensures forall t: nat :: TokenOk(s', c', t)
  {
    forall t: nat ensures TokenOk(s', c', t) {
      assert TokenOk(s, c, t);
    }
  }

  /** A step that moves no claim and no shared word. */
  lemma SameBalanced(s: Shared, c: Tally, c': Tally)
    requires Balanced(s, c) && Moves(c, c', Nothing, Nothing)
    ensures Balanced(s, c')
  {
    SameLeases(s, c, s, c', Nothing, Nothing);
    SameTokens(s, c, s, c', Nothing, Nothing);
  }

  lemma FinishCoreOk(s: Shared, c: Tally, c': Tally)
    requires CoreOk(s, c) && c[EnteringCore] > 0 && Moves(c, c', EnteringCore, FreeingCore)
    ensures CoreOk(s.(coreFinished := true), c')
  {
  }

  lemma FinishCoreBalanced(s: Shared, c: Tally, c': Tally)
    requires Balanced(s, c) && c[EnteringCore] > 0 && Moves(c, c', EnteringCore, FreeingCore)
    ensures Balanced(s.(coreFinished := true), c')
  {
    FinishCoreOk(s, c, c');
    SameLeases(s, c, s.(coreFinished := true), c', EnteringCore, FreeingCore);
    SameTokens(s, c, s.(coreFinished := true), c', EnteringCore, FreeingCore);
  }

  /** When no lease is live and no token is in a hand, every issued token was released. */
  lemma AllSpent(s: Shared, c: Tally)
    requires forall k :: k in s.leases ==> LeaseOk(s, c, k)
    requires forall t: nat :: TokenOk(s, c, t) && c[Holding(t)] == 0
    requires s.live == {}
    ensures forall t: nat :: t < s.ledger.issued ==> t in s.ledger.spent
  {
    forall t: nat | t < s.ledger.issued ensures t in s.ledger.spent {
      assert TokenOk(s, c, t);
      assert ValueLease(t) in s.leases ==> LeaseOk(s, c, ValueLease(t));
    }
  }

  lemma FreeCoreBalanced(s: Shared, c: Tally, c': Tally)
    requires Balanced(s, c) && c[FreeingCore] > 0 && Moves(c, c', FreeingCore, Nothing)
    requires forall t: nat :: c[Holding(t)] == 0
    ensures s.ledger.resourceReleases == 0
    ensures Balanced(Report(s, ReleaseResource), c')
  {
    AllSpent(s, c);
    SameLeases(s, c, Report(s, ReleaseResource), c', FreeingCore, Nothing);
    SameTokens(s, c, Report(s, ReleaseResource), c', FreeingCore, Nothing);
  }

  lemma IssueTokens(s: Shared, c: Tally, c': Tally)
    requires Moves(c, c', Nothing, Holding(s.ledger.issued))
    requires forall t: nat :: TokenOk(s, c, t)
    ensures forall t: nat :: TokenOk(Report(s, Issue), c', t)
  {
    forall t: nat ensures TokenOk(Report(s, Issue), c', t) {
      assert TokenOk(s, c, t);
    }
  }

  lemma IssueCore(s: Shared, c: Tally, c': Tally)
    requires CoreOk(s, c) && s.ledger.resourceReleases == 0
    requires Moves(c, c', Nothing, Holding(s.ledger.issued))
    ensures CoreOk(Report(s, Issue), c') && SameLeaseState(s, Report(s, Issue))
  {
  }

  lemma IssueBalanced(s: Shared, c: Tally, c': Tally)
    requires Balanced(s, c) && s.ledger.resourceReleases == 0
    requires Moves(c, c', Nothing, Holding(s.ledger.issued))
    ensures Balanced(Report(s, Issue), c')
  {
    IssueTokens(s, c, c');
    IssueCore(s, c, c');
    SameLeases(s, c, Report(s, Issue), c', Nothing, Holding(s.ledger.issued));
  }

  lemma RejectTokens(s: Shared, c: Tally, c': Tally, t: nat)
    requires c[Holding(t)] > 0 && Moves(c, c', Holding(t), Nothing)
    requires forall u: nat :: TokenOk(s, c, u)
    ensures t < s.ledger.issued && t !in s.ledger.spent && ValueLease(t) !in s.leases
    ensures forall u: nat :: TokenOk(Report(s, ReleaseToken(t)), c', u)
  {
    assert TokenOk(s, c, t);
    forall u: nat ensures TokenOk(Report(s, ReleaseToken(t)), c', u) {
      assert TokenOk(s, c, u);
    }
  }

  lemma RejectCore(s: Shared, c: Tally, c': Tally, t: nat)
    requires CoreOk(s, c) && Moves(c, c', Holding(t), Nothing)
    requires s.ledger.resourceReleases == 0 && t < s.ledger.issued && t !in s.ledger.spent
    ensures CoreOk(Report(s, ReleaseToken(t)), c')
  {
  }

  lemma RejectLeaseState(s: Shared, t: nat)
    requires ValueLease(t) !in s.leases
    ensures SameLeaseState(s, Report(s, ReleaseToken(t)))
  {
  }

  lemma RejectBalanced(s: Shared, c: Tally, c': Tally, t: nat)
    requires Balanced(s, c) && c[Holding(t)] > 0 && s.ledger.resourceReleases == 0
    requires Moves(c, c', Holding(t), Nothing)
    ensures Balanced(Report(s, ReleaseToken(t)), c')
  {
    RejectTokens(s, c, c', t);
    RejectCore(s, c, c', t);
    RejectLeaseState(s, t);
    SameLeases(s, c, Report(s, ReleaseToken(t)), c', Holding(t), Nothing);
  }

  /** The shared state after a successful `core.retain` for token `t`. */
  ghost function Adopt(s: Shared, t: nat): Shared {
    s.(references := s.references + 1,
       leases := s.leases[ValueLease(t) := SharedLease(0, false)],
       live := s.live + {ValueLease(t)})
  }

  lemma AdoptTokens(s: Shared, c: Tally, c': Tally, t: nat)
    requires c[Holding(t)] > 0 && Moves(c, c', Holding(t), Nothing)
    requires forall u: nat :: TokenOk(s, c, u)
    ensures ValueLease(t) !in s.leases && t !in s.ledger.spent
    ensures forall u: nat :: TokenOk(Adopt(s, t), c', u)
  {
    assert TokenOk(s, c, t);
    forall u: nat ensures TokenOk(Adopt(s, t), c', u) {
      assert TokenOk(s, c, u);
    }
  }

  lemma AdoptOther(s: Shared, c: Tally, c': Tally, t: nat, k: LeaseId)
    requires Moves(c, c', Holding(t), Nothing)
    requires k in s.leases && k != ValueLease(t) && LeaseOk(s, c, k)
    ensures LeaseOk(Adopt(s, t), c', k)
  {
  }

  lemma AdoptNew(s: Shared, c: Tally, c': Tally, t: nat)
    requires Moves(c, c', Holding(t), Nothing)
    requires t !in s.ledger.spent && Unclaimed(c, ValueLease(t))
    ensures LeaseOk(Adopt(s, t), c', ValueLease(t))
  {
  }

  lemma AdoptLeases(s: Shared, c: Tally, c': Tally, t: nat)
    requires Moves(c, c', Holding(t), Nothing)
    requires ValueLease(t) !in s.leases && t !in s.ledger.spent
    requires forall k :: k in s.leases ==> LeaseOk(s, c, k)
    requires forall k :: k !in s.leases ==> Unclaimed(c, k)
    ensures forall k :: k in Adopt(s, t).leases ==> LeaseOk(Adopt(s, t), c', k)
  {
    assert Unclaimed(c, ValueLease(t));
    AdoptNew(s, c, c', t);
    forall k | k in s.leases ensures LeaseOk(Adopt(s, t), c', k) {
      AdoptOther(s, c, c', t, k);
    }
  }

  lemma AdoptUnclaimed(s: Shared, c: Tally, c': Tally, t: nat)
    requires Moves(c, c', Holding(t), Nothing)
    requires forall k :: k !in s.leases ==> Unclaimed(c, k)
    ensures forall k :: k !in Adopt(s, t).leases ==> Unclaimed(c', k)
  {
    forall k | k !in Adopt(s, t).leases ensures Unclaimed(c', k) {
      assert Unclaimed(c, k);
    }
  }

  lemma AdoptCore(s: Shared, c: Tally, c': Tally, t: nat)
    requires CoreOk(s, c) && 0 < s.references < MAX_INT64 && ValueLease(t) !in s.leases
    requires Moves(c, c', Holding(t), Nothing)
    ensures CoreOk(Adopt(s, t), c')
  {
    assert |s.live + {ValueLease(t)}| == |s.live| + 1;
  }

  /** A successful retain turns the token in the hand into a value with its own lease. */
  lemma RetainBalanced(s: Shared, c: Tally, c': Tally, t: nat)
    requires Balanced(s, c) && c[Holding(t)] > 0 && 0 < s.references < MAX_INT64
    requires Moves(c, c', Holding(t), Nothing)
    ensures Balanced(Adopt(s, t), c')
  {
    AdoptTokens(s, c, c', t);
    AdoptLeases(s, c, c', t);
    AdoptUnclaimed(s, c, c', t);
    AdoptCore(s, c, c', t);
  }

  // ---------------------------------------------------------------- each step keeps the balance

  lemma WordOnlyAt(s: Shared, l: LeaseId, word: Word)
    requires l in s.leases
    ensures OnlyAt(s, SetWord(s, l, word), l)
  {
  }

  /** A right word and a claim about its lease are all that an update of one word needs. */
  lemma WordBalanced(s: Shared, c: Tally, c': Tally, l: LeaseId, word: Word, minus: Claim, plus: Claim)
    requires Balanced(s, c) && l in s.leases && Local(SetWord(s, l, word), c', l)
    requires Moves(c, c', minus, plus) && Concerns(minus, l) && Concerns(plus, l)
    ensures Balanced(SetWord(s, l, word), c')
  {
    WordOnlyAt(s, l, word);
    TouchOne(s, c, SetWord(s, l, word), c', l, minus, plus);
  }

  lemma BalancedLocal(s: Shared, c: Tally, l: LeaseId)
    requires Balanced(s, c) && l in s.leases
    ensures Local(s, c, l)
  {
  }

  lemma BorrowBalanced(s: Shared, c: Tally, c': Tally, l: LeaseId)
    requires Balanced(s, c) && l in s.leases && Acquirable(s.leases[l].word)
    requires Moves(c, c', Nothing, Borrow(l))
    ensures Balanced(SetWord(s, l, Increment(s.leases[l].word)), c')
  {
    BalancedLocal(s, c, l);
    BorrowLocal(s, c, c', l);
    WordBalanced(s, c, c', l, Increment(s.leases[l].word), Nothing, Borrow(l));
  }

  lemma ReturnBalanced(s: Shared, c: Tally, c': Tally, l: LeaseId)
    requires Balanced(s, c) && l in s.leases && c[Borrow(l)] > 0
    requires Moves(c, c', Borrow(l),
                   if AddMinusOne(s.leases[l].word) == CLOSED_BIT then Entering(l) else Nothing)
    ensures Balanced(SetWord(s, l, AddMinusOne(s.leases[l].word)), c')
  {
    BalancedLocal(s, c, l);
    ReturnLocal(s, c, c', l);
    var plus := if AddMinusOne(s.leases[l].word) == CLOSED_BIT then Entering(l) else Nothing;
    WordBalanced(s, c, c', l, AddMinusOne(s.leases[l].word), Borrow(l), plus);
  }

  lemma CloseBalanced(s: Shared, c: Tally, c': Tally, l: LeaseId)
    requires Balanced(s, c) && l in s.leases && !HasClosedBit(s.leases[l].word)
    requires Moves(c, c', Nothing, if s.leases[l].word == 0 then Entering(l) else Nothing)
    ensures Balanced(SetWord(s, l, SetClosedBit(s.leases[l].word)), c')
  {
    BalancedLocal(s, c, l);
    CloseLocal(s, c, c', l);
    var plus := if s.leases[l].word == 0 then Entering(l) else Nothing;
    WordBalanced(s, c, c', l, SetClosedBit(s.leases[l].word), Nothing, plus);
  }

  function Finished(s: Shared, l: LeaseId): Shared
    requires l in s.leases
  {
    s.(leases := s.leases[l := s.leases[l].(finished := true)])
  }

  lemma FinishedOnlyAt(s: Shared, l: LeaseId)
    requires l in s.leases
    ensures OnlyAt(s, Finished(s, l), l)
  {
  }

  lemma FinishBalanced(s: Shared, c: Tally, c': Tally, l: LeaseId)
    requires Balanced(s, c) && c[Entering(l)] > 0 && l in s.leases
    requires Moves(c, c', Entering(l), if l.ValueLease? then Freeing(l) else Dropping(l))
    ensures Balanced(Finished(s, l), c')
  {
    BalancedLocal(s, c, l);
    FinishLocal(s, c, c', l);
    FinishedOnlyAt(s, l);
    TouchOne(s, c, Finished(s, l), c', l, Entering(l), if l.ValueLease? then Freeing(l) else Dropping(l));
  }

  lemma FreedOnlyAt(s: Shared, l: LeaseId)
    requires l in s.leases && l.ValueLease?
    ensures OnlyAt(s, Report(s, ReleaseToken(l.id)), l)
  {
  }

  lemma FreeBalanced(s: Shared, c: Tally, c': Tally, l: LeaseId)
    requires Balanced(s, c) && c[Freeing(l)] > 0 && Moves(c, c', Freeing(l), Dropping(l))
    ensures l.ValueLease? && Balanced(Report(s, ReleaseToken(l.id)), c')
  {
    ClaimedLease(s, c, l);
    assert l.ValueLease? ==> TokenOk(s, c, l.id);
    FreeLocal(s, c, c', l);
    FreedOnlyAt(s, l);
    TouchOne(s, c, Report(s, ReleaseToken(l.id)), c', l, Freeing(l), Dropping(l));
  }

  function Dropped(s: Shared, l: LeaseId): Shared {
    s.(references := s.references - 1, live := s.live - {l})
  }

  lemma DroppedOnlyAt(s: Shared, l: LeaseId)
    requires l in s.leases
    ensures OnlyAt(s, Dropped(s, l), l)
  {
  }

  lemma DropBalanced(s: Shared, c: Tally, c': Tally, l: LeaseId)
    requires Balanced(s, c) && c[Dropping(l)] > 0
    requires Moves(c, c', Dropping(l), if s.references == 1 then EnteringCore else Nothing)
    ensures s.references > 0
    ensures Balanced(Dropped(s, l), c')
  {
    ClaimedLease(s, c, l);
    DropLocal(s, c, c', l);
    DroppedOnlyAt(s, l);
    TouchOne(s, c, Dropped(s, l), c', l, Dropping(l), if s.references == 1 then EnteringCore else Nothing);
  }

  lemma AcquireKept(s: Shared, c: Tally, g: Goroutine, choice: Choice, c': Tally)
    requires Balanced(s, c) && GoroutineOk(s.leases.Keys, g) && g.pc.AcquireSwap?
    requires Moves(c, c', Withdrawn(s, g), Made(s, g, choice))
    ensures Balanced(StepOne(s, g, choice).0, c')
  {
    if s.leases[g.pc.todo[0]].word == g.pc.seen {
      BorrowBalanced(s, c, c', g.pc.todo[0]);
    } else {
      SameBalanced(s, c, c');
    }
  }

  /** The tokens of all borrowed values are issued and not released. */
  ghost predicate OperandsLive(s: Shared, held: seq<LeaseId>) {
    forall l :: l in held && l.ValueLease? ==> l.id < s.ledger.issued && l.id !in s.ledger.spent
  }

  lemma LegalOperation(s: Shared, held: seq<LeaseId>)
    requires OperandsLive(s, held) && s.ledger.resourceReleases == 0
    ensures Report(s, Operate(Operands(held))) == WithLog(s, s.ledger.log + [Operate(Operands(held))])
  {
  }

  function WithLog(s: Shared, log: seq<NativeCall>): Shared {
    s.(ledger := s.ledger.(log := log))
  }

  /** The invariant does not look at the log. */
  lemma LogBalanced(s: Shared, c: Tally, c': Tally, log: seq<NativeCall>)
    requires Balanced(s, c) && Moves(c, c', Nothing, Nothing)
    ensures Balanced(WithLog(s, log), c')
  {
    SameLeases(s, c, WithLog(s, log), c', Nothing, Nothing);
    SameTokens(s, c, WithLog(s, log), c', Nothing, Nothing);
  }

  lemma CallKept(s: Shared, c: Tally, g: Goroutine, choice: Choice, c': Tally)
    requires Balanced(s, c) && s.ledger.resourceReleases == 0 && g.pc.Calling? && OperandsLive(s, g.held)
    requires Moves(c, c', Withdrawn(s, g), Made(s, g, choice))
    ensures Balanced(StepOne(s, g, choice).0, c')
  {
    LegalOperation(s, g.held);
    LogBalanced(s, c, c', s.ledger.log + [Operate(Operands(g.held))]);
  }

  lemma InCallKept(s: Shared, c: Tally, g: Goroutine, choice: Choice, c': Tally)
    requires Balanced(s, c) && s.ledger.resourceReleases == 0 && g.pc.InCall?
    requires Moves(c, c', Withdrawn(s, g), Made(s, g, choice))
    ensures Balanced(StepOne(s, g, choice).0, c')
  {
    if choice == Answer(true) {
      IssueBalanced(s, c, c');
    } else {
      assert StepOne(s, g, choice).0 == s;
      SameBalanced(s, c, c');
    }
  }

  lemma RetainKept(s: Shared, c: Tally, g: Goroutine, choice: Choice, c': Tally)
    requires Balanced(s, c) && GoroutineOk(s.leases.Keys, g) && Backed(s, c, g)
    requires g.pc.RetainSwap?
    requires Moves(c, c', Withdrawn(s, g), Made(s, g, choice))
    ensures Balanced(StepOne(s, g, choice).0, c')
  {
    if s.references == g.pc.count {
      RetainBalanced(s, c, c', g.pc.token);
    } else {
      SameBalanced(s, c, c');
    }
  }

  lemma RejectKept(s: Shared, c: Tally, g: Goroutine, choice: Choice, c': Tally)
    requires Balanced(s, c) && Backed(s, c, g) && s.ledger.resourceReleases == 0 && g.pc.Reject?
    requires Moves(c, c', Withdrawn(s, g), Made(s, g, choice))
    ensures Balanced(StepOne(s, g, choice).0, c')
  {
    RejectBalanced(s, c, c', g.pc.token);
  }

  lemma ReleasingKept(s: Shared, c: Tally, g: Goroutine, choice: Choice, c': Tally)
    requires Balanced(s, c) && GoroutineOk(s.leases.Keys, g) && Backed(s, c, g)
    requires g.pc.Releasing?
    requires Moves(c, c', Withdrawn(s, g), Made(s, g, choice))
    ensures Balanced(StepOne(s, g, choice).0, c')
  {
    if g.held == [] {
      SameBalanced(s, c, c');
    } else {
      ReturnBalanced(s, c, c', g.held[0]);
    }
  }

  lemma CloseKept(s: Shared, c: Tally, g: Goroutine, choice: Choice, c': Tally)
    requires Balanced(s, c) && GoroutineOk(s.leases.Keys, g) && g.pc.CloseSwap?
    requires Moves(c, c', Withdrawn(s, g), Made(s, g, choice))
    ensures Balanced(StepOne(s, g, choice).0, c')
  {
    if s.leases[g.pc.lease].word == g.pc.seen {
      CloseBalanced(s, c, c', g.pc.lease);
    } else {
      SameBalanced(s, c, c');
    }
  }

  lemma FinishKept(s: Shared, c: Tally, g: Goroutine, choice: Choice, c': Tally)
    requires Balanced(s, c) && Backed(s, c, g) && g.pc.Finish?
    requires Moves(c, c', Withdrawn(s, g), Made(s, g, choice))
    ensures Balanced(StepOne(s, g, choice).0, c')
  {
    var l := g.pc.lease;
    ClaimedLease(s, c, l);
    EnteredUnfinished(s, c, l);
    FinishBalanced(s, c, c', l);
  }

  lemma EnteredUnfinished(s: Shared, c: Tally, l: LeaseId)
    requires Local(s, c, l) && c[Entering(l)] > 0
    ensures !s.leases[l].finished
  {
  }

  lemma FreeKept(s: Shared, c: Tally, g: Goroutine, choice: Choice, c': Tally)
    requires Balanced(s, c) && Backed(s, c, g) && g.pc.FreeToken?
    requires Moves(c, c', Withdrawn(s, g), Made(s, g, choice))
    ensures Balanced(StepOne(s, g, choice).0, c')
  {
    FreeBalanced(s, c, c', g.pc.lease);
  }

  lemma DropKept(s: Shared, c: Tally, g: Goroutine, choice: Choice, c': Tally)
    requires Balanced(s, c) && Backed(s, c, g) && g.pc.Drop?
    requires Moves(c, c', Withdrawn(s, g), Made(s, g, choice))
    ensures Balanced(StepOne(s, g, choice).0, c')
  {
    DropBalanced(s, c, c', g.pc.lease);
  }

  /** The core's once never suppresses either. */
  lemma CoreUnfinished(s: Shared, c: Tally)
    requires CoreOk(s, c) && c[EnteringCore] > 0
    ensures !s.coreFinished
  {
  }

  lemma FinishCoreStep(s: Shared, c: Tally, g: Goroutine, choice: Choice)
    requires CoreOk(s, c) && Backed(s, c, g) && g.pc.FinishCore?
    ensures c[EnteringCore] > 0 && StepOne(s, g, choice).0 == s.(coreFinished := true)
    ensures Withdrawn(s, g) == EnteringCore && Made(s, g, choice) == FreeingCore
  {
    CoreUnfinished(s, c);
  }

  lemma BalancedSame(s: Shared, s': Shared, c: Tally)
    requires Balanced(s, c) && s' == s
    ensures Balanced(s', c)
  {
  }

  lemma FinishCoreKept(s: Shared, c: Tally, g: Goroutine, choice: Choice, c': Tally)
    requires Balanced(s, c) && Backed(s, c, g) && g.pc.FinishCore?
    requires Moves(c, c', Withdrawn(s, g), Made(s, g, choice))
    ensures Balanced(StepOne(s, g, choice).0, c')
  {
    FinishCoreStep(s, c, g, choice);
    FinishCoreBalanced(s, c, c');
    BalancedSame(s.(coreFinished := true), StepOne(s, g, choice).0, c');
  }

  lemma FreeCoreKept(s: Shared, c: Tally, g: Goroutine, choice: Choice, c': Tally)
    requires Balanced(s, c) && Backed(s, c, g) && g.pc.FreeCore? && forall t: nat :: c[Holding(t)] == 0
    requires Moves(c, c', Withdrawn(s, g), Made(s, g, choice))
    ensures Balanced(StepOne(s, g, choice).0, c')
  {
    FreeCoreBalanced(s, c, c');
  }

  ghost predicate Quiet(pc: Pc) {
    pc.Idle? || pc.AcquireLoad? || pc.RetainLoad? || pc.CloseLoad?
  }

  lemma QuietStep(s: Shared, g: Goroutine, choice: Choice)
    requires Quiet(g.pc)
    ensures StepOne(s, g, choice).0 == s && Withdrawn(s, g) == Nothing && Made(s, g, choice) == Nothing
  {
  }

  lemma QuietKept(s: Shared, c: Tally, g: Goroutine, choice: Choice, c': Tally)
    requires Balanced(s, c) && Quiet(g.pc)
    requires Moves(c, c', Withdrawn(s, g), Made(s, g, choice))
    ensures Balanced(StepOne(s, g, choice).0, c')
  {
    QuietStep(s, g, choice);
    SameBalanced(s, c, c');
  }

  lemma StepBalanced(s: Shared, c: Tally, g: Goroutine, choice: Choice, c': Tally)
    requires Balanced(s, c) && GoroutineOk(s.leases.Keys, g) && Backed(s, c, g)
    requires g.pc.FreeCore? ==> forall t: nat :: c[Holding(t)] == 0
    requires OperandsLive(s, g.held)
    requires Moves(c, c', Withdrawn(s, g), Made(s, g, choice))
    ensures Balanced(StepOne(s, g, choice).0, c')
  {
    if Native(g.pc) {
      BorrowKeepsAlive(s, c, g.held[0]);
    }
    match g.pc
    case Idle => QuietKept(s, c, g, choice, c');
    case AcquireLoad(_) => QuietKept(s, c, g, choice, c');
    case AcquireSwap(_, _) => AcquireKept(s, c, g, choice, c');
    case Calling => CallKept(s, c, g, choice, c');
    case InCall => InCallKept(s, c, g, choice, c');
    case RetainLoad(_) => QuietKept(s, c, g, choice, c');
    case RetainSwap(_, _) => RetainKept(s, c, g, choice, c');
    case Reject(_) => RejectKept(s, c, g, choice, c');
    case Releasing => ReleasingKept(s, c, g, choice, c');
    case CloseLoad(_) => QuietKept(s, c, g, choice, c');
    case CloseSwap(_, _) => CloseKept(s, c, g, choice, c');
    case Finish(_) => FinishKept(s, c, g, choice, c');
    case FreeToken(_) => FreeKept(s, c, g, choice, c');
    case Drop(_) => DropKept(s, c, g, choice, c');
    case FinishCore => FinishCoreKept(s, c, g, choice, c');
    case FreeCore => FreeCoreKept(s, c, g, choice, c');
  }

  // ---------------------------------------------------------------- the moving goroutine

  ghost predicate MovesHeld(pc: Pc) {
    pc.AcquireSwap? || pc.Releasing?
  }

  lemma HeldGoroutineOk(s: Shared, g: Goroutine, choice: Choice)
    requires GoroutineOk(s.leases.Keys, g) && MovesHeld(g.pc)
    ensures s.leases.Keys <= StepOne(s, g, choice).0.leases.Keys
    ensures GoroutineOk(StepOne(s, g, choice).0.leases.Keys, StepOne(s, g, choice).1)
  {
  }

  lemma DutyGoroutineOk(s: Shared, g: Goroutine, choice: Choice)
    requires GoroutineOk(s.leases.Keys, g) && !MovesHeld(g.pc)
    ensures s.leases.Keys <= StepOne(s, g, choice).0.leases.Keys
    ensures GoroutineOk(StepOne(s, g, choice).0.leases.Keys, StepOne(s, g, choice).1)
  {
  }

  /** Every duty entered is executed: no once suppresses it and no count is below zero. */
  ghost predicate Unsuppressed(s: Shared, g: Goroutine) {
    && (g.pc.Finish? ==> g.pc.lease in s.leases && !s.leases[g.pc.lease].finished)
    && (g.pc.FreeToken? ==> g.pc.lease.ValueLease?)
    && (g.pc.Drop? ==> s.references > 0)
    && (g.pc.FinishCore? ==> !s.coreFinished)
  }

  /** A step moves exactly the claims it says. */
  ghost predicate StepsBy(g: Goroutine, g': Goroutine, minus: Claim, plus: Claim) {
    forall x :: x != Nothing ==>
      Count(g', x) + (if x == minus then 1 else 0) == Count(g, x) + (if x == plus then 1 else 0)
  }

  lemma AcquireCounts(s: Shared, g: Goroutine, choice: Choice)
    requires GoroutineOk(s.leases.Keys, g) && g.pc.AcquireSwap?
    ensures StepsBy(g, StepOne(s, g, choice).1, Withdrawn(s, g), Made(s, g, choice))
  {
    var g' := StepOne(s, g, choice).1;
    if s.leases[g.pc.todo[0]].word == g.pc.seen {
      assert g'.held[1..] == g.held;
    }
  }

  lemma ReleasingCounts(s: Shared, g: Goroutine, choice: Choice)
    requires GoroutineOk(s.leases.Keys, g) && g.pc.Releasing?
    ensures StepsBy(g, StepOne(s, g, choice).1, Withdrawn(s, g), Made(s, g, choice))
  {
    assert g.held != [] ==> g.held[0] in s.leases;
  }

  lemma DutyMoves(s: Shared, g: Goroutine, choice: Choice)
    requires !MovesHeld(g.pc) && Unsuppressed(s, g)
    ensures var g' := StepOne(s, g, choice).1;
            && g'.held == g.held
            && ((Duty(g.pc) == Withdrawn(s, g) && Duty(g'.pc) == Made(s, g, choice))
               || (Duty(g.pc) == Duty(g'.pc) && Withdrawn(s, g) == Nothing && Made(s, g, choice) == Nothing))
  {
  }

  lemma StepCounts(s: Shared, g: Goroutine, choice: Choice)
    requires GoroutineOk(s.leases.Keys, g) && Unsuppressed(s, g)
    ensures StepsBy(g, StepOne(s, g, choice).1, Withdrawn(s, g), Made(s, g, choice))
  {
    match g.pc
    case AcquireSwap(_, _) => AcquireCounts(s, g, choice);
    case Releasing => ReleasingCounts(s, g, choice);
    case _ => DutyMoves(s, g, choice);
  }

  lemma StepUnsuppressed(s: Shared, c: Tally, g: Goroutine)
    requires Balanced(s, c) && Backed(s, c, g)
    ensures Unsuppressed(s, g)
  {
    if g.pc.Finish? || g.pc.FreeToken? || g.pc.Drop? {
      ClaimedLease(s, c, g.pc.lease);
    }
    assert g.pc.Drop? ==> g.pc.lease in s.live;
  }

  // ---------------------------------------------------------------- whole runs

  lemma SumMoves(gs: seq<Goroutine>, i: nat, g: Goroutine, minus: Claim, plus: Claim)
    requires i < |gs| && StepsBy(gs[i], g, minus, plus)
    ensures Moves(Sum(gs), Sum(gs[i := g]), minus, plus)
  {
    forall x | x != Nothing
      ensures Sum(gs[i := g])[x] + (if x == minus then 1 else 0) == Sum(gs)[x] + (if x == plus then 1 else 0)
    {
      SumReplace(gs, i, g, x);
    }
  }

  lemma WithdrawnIsClaimed(s: Shared, g: Goroutine)
    requires Withdrawn(s, g) != Nothing
    ensures Count(g, Withdrawn(s, g)) > 0
  {
    assert g.pc.Releasing? || Duty(g.pc) == Withdrawn(s, g);
  }

  lemma SumBacks(s: Shared, gs: seq<Goroutine>, i: nat)
    requires i < |gs|
    ensures Backed(s, Sum(gs), gs[i])
  {
    var g := gs[i];
    if g.held != [] {
      assert Count(g, Borrow(g.held[0])) > 0;
      SumReplace(gs, i, g, Borrow(g.held[0]));
    }
    if Withdrawn(s, g) != Nothing {
      WithdrawnIsClaimed(s, g);
      SumReplace(gs, i, g, Withdrawn(s, g));
    }
  }

  lemma {:induction false} HeldIsBorrowed(held: seq<LeaseId>, l: LeaseId)
    requires l in held
    ensures Borrows(held)[Borrow(l)] > 0
  {
    if held[0] != l {
      HeldIsBorrowed(held[1..], l);
    }
  }

  /** A borrow keeps the token of its value alive. */
  lemma BorrowKeepsToken(s: Shared, c: Tally, l: LeaseId)
    requires Balanced(s, c) && c[Borrow(l)] > 0 && l.ValueLease?
    ensures l.id < s.ledger.issued && l.id !in s.ledger.spent
  {
    ClaimedLease(s, c, l);
    assert TokenOk(s, c, l.id);
  }

  lemma HeldLive(s: Shared, gs: seq<Goroutine>, i: nat)
    requires Balanced(s, Sum(gs)) && i < |gs|
    ensures OperandsLive(s, gs[i].held)
  {
    forall l | l in gs[i].held && l.ValueLease? ensures l.id < s.ledger.issued && l.id !in s.ledger.spent {
      HeldIsBorrowed(gs[i].held, l);
      SumReplace(gs, i, gs[i], Borrow(l));
      BorrowKeepsToken(s, Sum(gs), l);
    }
  }

  lemma {:induction false} BorrowsHoldNoToken(held: seq<LeaseId>, t: nat)
    ensures Borrows(held)[Holding(t)] == 0
  {
    if held != [] {
      BorrowsHoldNoToken(held[1..], t);
    }
  }

  /** A token in a hand comes with a borrow, so not while the resource is being released. */
  lemma HoldsToken(g: Goroutine, t: nat)
    requires Count(g, Holding(t)) > 0
    ensures Native(g.pc)
  {
    BorrowsHoldNoToken(g.held, t);
  }

  /** A goroutine with a token in its hand has borrowed, so some lease is live. */
  lemma HolderAlive(w: World, t: nat)
    requires Inv(w) && Sum(w.goroutines)[Holding(t)] > 0
    ensures w.shared.live != {}
  {
    var j := ClaimantExists(w.goroutines, Holding(t));
    HoldsToken(w.goroutines[j], t);
    assert GoroutineOk(w.shared.leases.Keys, w.goroutines[j]);
    SumBacks(w.shared, w.goroutines, j);
    BorrowKeepsAlive(w.shared, Sum(w.goroutines), w.goroutines[j].held[0]);
  }

  lemma NothingInHand(w: World, t: nat)
    requires Inv(w) && Sum(w.goroutines)[FreeingCore] > 0
    ensures Sum(w.goroutines)[Holding(t)] == 0
  {
    if Sum(w.goroutines)[Holding(t)] > 0 {
      HolderAlive(w, t);
    }
  }

  lemma OthersOk(before: set<LeaseId>, leases: set<LeaseId>, gs: seq<Goroutine>, i: nat, g: Goroutine)
    requires i < |gs| && before <= leases && GoroutineOk(leases, g)
    requires forall j :: 0 <= j < |gs| ==> GoroutineOk(before, gs[j])
    ensures var gs' := gs[i := g]; forall j :: 0 <= j < |gs'| ==> GoroutineOk(leases, gs'[j])
  {
    var gs' := gs[i := g];
    forall j | 0 <= j < |gs'| ensures GoroutineOk(leases, gs'[j]) {
      assert GoroutineOk(before, gs[j]);
    }
  }

  lemma StepKeepsInv(w: World, turn: Turn)
    requires Inv(w)
    ensures Inv(Step(w, turn))
  {
    var i, s, gs := turn.goroutine, w.shared, w.goroutines;
    if i < |gs| {
      var g := gs[i];
      var after := StepOne(s, g, turn.choice);
      SumBacks(s, gs, i);
      HeldLive(s, gs, i);
      StepUnsuppressed(s, Sum(gs), g);
      StepCounts(s, g, turn.choice);
      SumMoves(gs, i, after.1, Withdrawn(s, g), Made(s, g, turn.choice));
      if g.pc.FreeCore? {
        forall t: nat ensures Sum(gs)[Holding(t)] == 0 {
          NothingInHand(w, t);
        }
      }
      StepBalanced(s, Sum(gs), g, turn.choice, Sum(gs[i := after.1]));
      if MovesHeld(g.pc) {
        HeldGoroutineOk(s, g, turn.choice);
      } else {
        DutyGoroutineOk(s, g, turn.choice);
      }
      OthersOk(s.leases.Keys, after.0.leases.Keys, gs, i, after.1);
    }
  }

  /** The invariant holds after every schedule of every number of goroutines. */
  lemma {:induction false} RunKeepsInv(n: nat, schedule: seq<Turn>)
    ensures Inv(Run(Init(n), schedule))
  {
    if schedule == [] {
      InitInv(n);
    } else {
      RunKeepsInv(n, schedule[..|schedule| - 1]);
      StepKeepsInv(Run(Init(n), schedule[..|schedule| - 1]), schedule[|schedule| - 1]);
    }
  }
}
