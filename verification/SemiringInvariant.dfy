/**
 The invariant behind the safety of `SemiringLifetime`.

 Each goroutine makes a multiset of claims: the borrows it holds, the release duty it is
 executing, and the token in its hand.  The invariant is a set of counting equations over
 the sum of all claims, so every step changes them by one goroutine's difference only.
 */
module SemiringInvariant {
  import opened Interop
  import opened AtomicWord
  import opened SemiringLifetime

  datatype Claim =
    | Borrow(lease: LeaseId)
    | Entering(lease: LeaseId)      // about to run the lease's sync.Once
    | Freeing(lease: LeaseId)       // inside it, before the token release
    | Dropping(lease: LeaseId)      // inside it, before core.drop
    | Holding(token: nat)           // a token no value owns yet
    | EnteringCore
    | FreeingCore
    | Nothing

  /** How often each claim is made. */
  type Tally = multiset<Claim>

  ghost function Borrows(held: seq<LeaseId>): Tally {
    if held == [] then multiset{} else multiset{Borrow(held[0])} + Borrows(held[1..])
  }

  /** The release duty or the token a goroutine has at `pc`. */
  ghost function Duty(pc: Pc): Claim {
    match pc
    case Finish(l) => Entering(l)
    case FreeToken(l) => Freeing(l)
    case Drop(l) => Dropping(l)
    case FinishCore => EnteringCore
    case FreeCore => FreeingCore
    case RetainLoad(t) => Holding(t)
    case RetainSwap(t, _) => Holding(t)
    case Reject(t) => Holding(t)
    case _ => Nothing
  }

  /** How often goroutine `g` makes claim `x`. */
  ghost function Count(g: Goroutine, x: Claim): nat {
    Borrows(g.held)[x] + (if x == Duty(g.pc) then 1 else 0)
  }

  ghost function Sum(gs: seq<Goroutine>): Tally {
    if gs == [] then multiset{} else Borrows(gs[0].held) + multiset{Duty(gs[0].pc)} + Sum(gs[1..])
  }

  /** The word counts the borrows; a closed word without borrows is being or has been retired. */
  ghost predicate LeaseOk(s: Shared, c: Tally, l: LeaseId)
    requires l in s.leases
  {
    var lease := s.leases[l];
    && c[Borrow(l)] < CLOSED_BIT
    && (lease.word == c[Borrow(l)] || lease.word == CLOSED_BIT + c[Borrow(l)])
    && c[Entering(l)] + c[Freeing(l)] + c[Dropping(l)] + (if l in s.live then 0 else 1)
       == (if lease.word == CLOSED_BIT then 1 else 0)
    && (if lease.finished then c[Entering(l)] == 0 && lease.word == CLOSED_BIT
        else c[Freeing(l)] == 0 && c[Dropping(l)] == 0 && l in s.live)
    && (l.ContextLease? ==> c[Freeing(l)] == 0)
    && (l.ValueLease? ==> (l.id in s.ledger.spent <==> c[Dropping(l)] == 1 || l !in s.live))
  }

  ghost predicate Unclaimed(c: Tally, l: LeaseId) {
    && c[Borrow(l)] == 0 && c[Entering(l)] == 0
    && c[Freeing(l)] == 0 && c[Dropping(l)] == 0
  }

  /** A token is in exactly one place: in a hand, owned by a value, or released. */
  ghost predicate TokenOk(s: Shared, c: Tally, t: nat) {
    && c[Holding(t)] ==
       (if t < s.ledger.issued && t !in s.ledger.spent && ValueLease(t) !in s.leases then 1 else 0)
    && (ValueLease(t) in s.leases || t in s.ledger.spent ==> t < s.ledger.issued)
  }

  /** The reference count counts the live leases; the last one is followed by one release. */
  ghost predicate CoreOk(s: Shared, c: Tally) {
    && ContextLease in s.leases
    && s.live <= s.leases.Keys
    && s.references == |s.live| <= MAX_INT64
    && c[EnteringCore] + c[FreeingCore] + s.ledger.resourceReleases
       == (if s.live == {} then 1 else 0)
    && (if s.coreFinished then c[EnteringCore] == 0 && s.live == {}
        else c[FreeingCore] == 0 && s.ledger.resourceReleases == 0)
    && !s.ledger.violated
  }

  ghost predicate Balanced(s: Shared, c: Tally) {
    && (forall l :: l in s.leases ==> LeaseOk(s, c, l))
    && (forall l :: l !in s.leases ==> Unclaimed(c, l))
    && (forall t: nat :: TokenOk(s, c, t))
    && CoreOk(s, c)
  }

  ghost predicate Native(pc: Pc) {
    pc.Calling? || pc.InCall? || pc.RetainLoad? || pc.RetainSwap? || pc.Reject?
  }

  /** Facts about one goroutine that no other goroutine can falsify. */
  ghost predicate GoroutineOk(leases: set<LeaseId>, g: Goroutine) {
    && (forall l :: l in g.held ==> l in leases)
    && (Native(g.pc) ==> g.held != [])
    && match g.pc
       case Idle => g.held == []
       case AcquireLoad(todo) => todo != [] || g.held != []
       case AcquireSwap(todo, seen) => todo != [] && todo[0] in leases && Acquirable(seen)
       case RetainSwap(_, count) => count > 0 && count != MAX_INT64
       case CloseLoad(l) => l in leases
       case CloseSwap(l, seen) => l in leases && !HasClosedBit(seen)
       case _ => true
  }

  ghost predicate Inv(w: World) {
    && Balanced(w.shared, Sum(w.goroutines))
    && (forall i :: 0 <= i < |w.goroutines| ==> GoroutineOk(w.shared.leases.Keys, w.goroutines[i]))
  }

  /** `c'` makes the claims of `c`, without one `minus` and with one more `plus`. */
  ghost predicate Moves(c: Tally, c': Tally, minus: Claim, plus: Claim) {
    forall x :: x != Nothing ==>
      c'[x] + (if x == minus then 1 else 0) == c[x] + (if x == plus then 1 else 0)
  }

  /** An update of lease `l` may make or withdraw this claim. */
  ghost predicate Concerns(x: Claim, l: LeaseId) {
    x in {Borrow(l), Entering(l), Freeing(l), Dropping(l), EnteringCore, Nothing}
  }

  /** `s'` differs from `s` at most at lease `l`, its token, the live set and the counters. */
  ghost predicate OnlyAt(s: Shared, s': Shared, l: LeaseId) {
    && l in s.leases && s'.leases.Keys == s.leases.Keys
    && s'.ledger.issued == s.ledger.issued
    && (forall k :: k in s.leases && k != l ==> s'.leases[k] == s.leases[k])
    && (forall k :: k != l ==> (k in s'.live <==> k in s.live))
    && (forall t: nat :: ValueLease(t) != l ==> (t in s'.ledger.spent <==> t in s.ledger.spent))
  }

  /** The part of the invariant an update of lease `l` has to re-establish itself. */
  ghost predicate Local(s: Shared, c: Tally, l: LeaseId) {
    l in s.leases && LeaseOk(s, c, l) && CoreOk(s, c)
  }

  // The claims a step of goroutine `g` withdraws and makes.

  ghost function Withdrawn(s: Shared, g: Goroutine): Claim {
    match g.pc
    case RetainSwap(t, count) => if s.references == count then Holding(t) else Nothing
    case Reject(t) => Holding(t)
    case Releasing => if g.held != [] then Borrow(g.held[0]) else Nothing
    case Finish(l) => Entering(l)
    case FreeToken(l) => Freeing(l)
    case Drop(l) => Dropping(l)
    case FinishCore => EnteringCore
    case FreeCore => FreeingCore
    case _ => Nothing
  }

  ghost function Made(s: Shared, g: Goroutine, choice: Choice): Claim {
    match g.pc
    case AcquireSwap(todo, seen) =>
      if todo != [] && todo[0] in s.leases && s.leases[todo[0]].word == seen then Borrow(todo[0])
      else Nothing
    case InCall => if choice == Answer(true) then Holding(s.ledger.issued) else Nothing
    case Releasing =>
      if g.held != [] && g.held[0] in s.leases && AddMinusOne(s.leases[g.held[0]].word) == CLOSED_BIT
      then Entering(g.held[0]) else Nothing
    case CloseSwap(l, seen) =>
      if l in s.leases && s.leases[l].word == seen == 0 then Entering(l) else Nothing
    case Finish(l) =>
      if l !in s.leases || s.leases[l].finished then Nothing
      else if l.ValueLease? then Freeing(l) else Dropping(l)
    case FreeToken(l) => Dropping(l)
    case Drop(_) => if s.references == 1 then EnteringCore else Nothing
    case FinishCore => if s.coreFinished then Nothing else FreeingCore
    case _ => Nothing
  }

  /** The duties `g` is executing are in the tally. */
  ghost predicate Backed(s: Shared, c: Tally, g: Goroutine) {
    && (g.held != [] ==> c[Borrow(g.held[0])] > 0)
    && (Withdrawn(s, g) != Nothing ==> c[Withdrawn(s, g)] > 0)
  }
}
