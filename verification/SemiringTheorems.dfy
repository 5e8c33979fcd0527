/** What the invariant means for the users of a Go semiring context. */
module SemiringTheorems {
  import opened Interop
  import opened AtomicWord
  import opened SemiringLifetime
  import opened SemiringInvariant
  import opened SemiringSafety

  ghost predicate AllIdle(w: World) {
    forall i :: 0 <= i < |w.goroutines| ==> w.goroutines[i].pc == Idle
  }

  /** `Close` was called on the lease and its compare-and-swap succeeded. */
  ghost predicate Closed(w: World, l: LeaseId) {
    l in w.shared.leases && HasClosedBit(w.shared.leases[l].word)
  }

  /**
   No interleaving makes an illegal native call: no call after the native release, no operation
   on a token that is unissued or already released, no token released twice or unissued, no
   release of the resource while a token is outstanding, no second release, and no underflow
   of the reference count.
   */
  lemma NoIllegalNativeCall(n: nat, schedule: seq<Turn>)
    ensures var ledger := Run(Init(n), schedule).shared.ledger;
            !ledger.violated && ledger.resourceReleases <= 1
  {
    RunKeepsInv(n, schedule);
  }

  /**
   While a goroutine holds a borrow, in particular during the whole native operation it borrowed
   for, the token of the borrowed value stays issued and unreleased.
   */
  lemma OperandsStayLive(n: nat, schedule: seq<Turn>, i: nat, t: nat)
    requires i < |Run(Init(n), schedule).goroutines|
    requires ValueLease(t) in Run(Init(n), schedule).goroutines[i].held
    ensures var ledger := Run(Init(n), schedule).shared.ledger; t < ledger.issued && t !in ledger.spent
  {
    RunKeepsInv(n, schedule);
    HeldLive(Run(Init(n), schedule).shared, Run(Init(n), schedule).goroutines, i);
  }

  /** The low 63 bits of every lease word are the borrows in flight. */
  lemma WordCountsBorrows(n: nat, schedule: seq<Turn>, l: LeaseId)
    requires l in Run(Init(n), schedule).shared.leases
    ensures var w := Run(Init(n), schedule);
            Decode(w.shared.leases[l].word).count == Sum(w.goroutines)[Borrow(l)]
  {
    RunKeepsInv(n, schedule);
    assert LeaseOk(Run(Init(n), schedule).shared, Sum(Run(Init(n), schedule).goroutines), l);
  }

  lemma LiveIffNotRetired(s: Shared, c: Tally)
    requires Balanced(s, c) && s.live == {}
    ensures forall l :: l in s.leases ==> s.leases[l].word == CLOSED_BIT && s.leases[l].finished && c[Borrow(l)] == 0
  {
    forall l | l in s.leases
      ensures s.leases[l].word == CLOSED_BIT && s.leases[l].finished && c[Borrow(l)] == 0
    {
      assert LeaseOk(s, c, l);
    }
  }

  /**
   The native release comes after everything else: every lease (the context's and every
   value's) is closed, unborrowed and finished, every issued token has been released, and no
   goroutine holds a borrow or is inside a native operation.
   */
  lemma ReleaseComesLast(n: nat, schedule: seq<Turn>, i: nat)
    requires Run(Init(n), schedule).shared.ledger.resourceReleases > 0
    requires i < |Run(Init(n), schedule).goroutines|
    ensures var w := Run(Init(n), schedule);
            && w.shared.references == 0
            && (forall l :: l in w.shared.leases ==>
                  w.shared.leases[l].word == CLOSED_BIT && w.shared.leases[l].finished)
            && w.goroutines[i].held == [] && !Native(w.goroutines[i].pc)
  {
    var w := Run(Init(n), schedule);
    RunKeepsInv(n, schedule);
    var c := Sum(w.goroutines);
    assert w.shared.live == {};
    LiveIffNotRetired(w.shared, c);
    assert GoroutineOk(w.shared.leases.Keys, w.goroutines[i]);
    SumBacks(w.shared, w.goroutines, i);
    if w.goroutines[i].held != [] {
      BorrowKeepsAlive(w.shared, c, w.goroutines[i].held[0]);
    }
  }

  lemma RetiredTokenSpent(s: Shared, c: Tally, t: nat)
    requires Balanced(s, c) && s.live == {} && ValueLease(t) in s.leases
    ensures t in s.ledger.spent
  {
    assert LeaseOk(s, c, ValueLease(t));
  }

  lemma UnownedTokenHeld(s: Shared, c: Tally, t: nat)
    requires Balanced(s, c) && t < s.ledger.issued && ValueLease(t) !in s.leases && t !in s.ledger.spent
    ensures c[Holding(t)] == 1
  {
    assert TokenOk(s, c, t);
  }

  lemma EveryTokenSpent(n: nat, schedule: seq<Turn>, t: nat)
    requires Run(Init(n), schedule).shared.ledger.resourceReleases > 0
    requires t < Run(Init(n), schedule).shared.ledger.issued
    ensures t in Run(Init(n), schedule).shared.ledger.spent
  {
    var w := Run(Init(n), schedule);
    RunKeepsInv(n, schedule);
    if ValueLease(t) in w.shared.leases {
      RetiredTokenSpent(w.shared, Sum(w.goroutines), t);
    } else if t !in w.shared.ledger.spent {
      UnownedTokenHeld(w.shared, Sum(w.goroutines), t);
      HolderAlive(w, t);
    }
  }

  /** A goroutine that enters a `sync.Once` is the one that runs it: neither ever suppresses. */
  lemma OnceNeverSuppresses(n: nat, schedule: seq<Turn>, i: nat)
    requires i < |Run(Init(n), schedule).goroutines|
    ensures var w := Run(Init(n), schedule);
            var pc := w.goroutines[i].pc;
            && (pc.Finish? ==> pc.lease in w.shared.leases && !w.shared.leases[pc.lease].finished)
            && (pc.FinishCore? ==> !w.shared.coreFinished)
  {
    var w := Run(Init(n), schedule);
    RunKeepsInv(n, schedule);
    SumBacks(w.shared, w.goroutines, i);
    StepUnsuppressed(w.shared, Sum(w.goroutines), w.goroutines[i]);
  }

  /**
   `core.retain` inside `context.value` never finds the core gone; it fails exactly when
   2^63 - 1 leases are live, which is the overflow guard of the code.
   */
  lemma RetainFailsOnlyWhenFull(n: nat, schedule: seq<Turn>, i: nat, choice: Choice)
    requires i < |Run(Init(n), schedule).goroutines|
    requires Run(Init(n), schedule).goroutines[i].pc.RetainLoad?
    ensures var w := Run(Init(n), schedule);
            && w.shared.references > 0
            && (StepOne(w.shared, w.goroutines[i], choice).1.pc.Reject? <==> |w.shared.live| == MAX_INT64)
  {
    var w := Run(Init(n), schedule);
    RunKeepsInv(n, schedule);
    assert GoroutineOk(w.shared.leases.Keys, w.goroutines[i]);
    SumBacks(w.shared, w.goroutines, i);
    BorrowKeepsAlive(w.shared, Sum(w.goroutines), w.goroutines[i].held[0]);
  }

  /** Where an idle system stands on one lease. */
  lemma IdleLease(w: World, l: LeaseId)
    requires Inv(w) && AllIdle(w) && l in w.shared.leases
    ensures w.shared.leases[l].word == if Closed(w, l) then CLOSED_BIT else 0
    ensures l in w.shared.live <==> !Closed(w, l)
    ensures l.ValueLease? ==> (l.id in w.shared.ledger.spent <==> Closed(w, l))
  {
    IdleTally(w);
    assert LeaseOk(w.shared, Sum(w.goroutines), l);
  }

  lemma IdleTally(w: World)
    requires Inv(w) && AllIdle(w)
    ensures forall x :: x != Nothing ==> Sum(w.goroutines)[x] == 0
  {
    forall i | 0 <= i < |w.goroutines| ensures w.goroutines[i].held == [] {
      assert GoroutineOk(w.shared.leases.Keys, w.goroutines[i]);
    }
    forall x | x != Nothing ensures Sum(w.goroutines)[x] == 0 {
      IdleClaimsNothing(w.goroutines, x);
    }
  }

  /**
   When all goroutines have finished, every borrow has been returned, a value's token has been
   released exactly if the value was closed, and the native resource has been released exactly
   once if the context and all values were closed, and not at all otherwise.
   */
  lemma QuiescentOutcome(n: nat, schedule: seq<Turn>)
    requires AllIdle(Run(Init(n), schedule))
    ensures var w := Run(Init(n), schedule);
            && (forall l :: l in w.shared.leases ==>
                  w.shared.leases[l].word == if Closed(w, l) then CLOSED_BIT else 0)
            && (forall t: nat :: ValueLease(t) in w.shared.leases ==>
                  (t in w.shared.ledger.spent <==> Closed(w, ValueLease(t))))
            && (forall t: nat :: t < w.shared.ledger.issued && ValueLease(t) !in w.shared.leases ==>
                  t in w.shared.ledger.spent)
  {
    var w := Run(Init(n), schedule);
    RunKeepsInv(n, schedule);
    IdleTally(w);
    forall l | l in w.shared.leases
      ensures w.shared.leases[l].word == (if Closed(w, l) then CLOSED_BIT else 0)
      ensures l.ValueLease? ==> (l.id in w.shared.ledger.spent <==> Closed(w, l))
    {
      IdleLease(w, l);
    }
    forall t: nat | t < w.shared.ledger.issued && ValueLease(t) !in w.shared.leases
      ensures t in w.shared.ledger.spent
    {
      assert TokenOk(w.shared, Sum(w.goroutines), t);
    }
  }

  lemma ReleasedIffAllClosed(n: nat, schedule: seq<Turn>)
    requires AllIdle(Run(Init(n), schedule))
    ensures var w := Run(Init(n), schedule);
            w.shared.ledger.resourceReleases ==
            if forall l :: l in w.shared.leases ==> Closed(w, l) then 1 else 0
  {
    var w := Run(Init(n), schedule);
    RunKeepsInv(n, schedule);
    IdleTally(w);
    if w.shared.live == {} {
      forall l | l in w.shared.leases ensures Closed(w, l) {
        IdleLease(w, l);
      }
    } else {
      var l :| l in w.shared.live;
      IdleLease(w, l);
    }
  }

  // ---------------------------------------------------------------- every run can come to rest

  /** Turns a goroutine needs at most from `pc` until it unwinds its borrows. */
  function Ahead(s: Shared, pc: Pc): nat {
    match pc
    case Idle => 0
    case Releasing => 1
    case FreeCore => 2
    case FinishCore => 3
    case Drop(_) => 4
    case FreeToken(_) => 5
    case Finish(_) => 6
    case Reject(_) => 2
    case RetainSwap(_, count) => if count == s.references then 3 else 5
    case RetainLoad(_) => 4
    case InCall => 2
    case Calling => 3
    case AcquireLoad(todo) => 4 + 10 * |todo|
    case AcquireSwap(todo, seen) =>
      if todo != [] && todo[0] in s.leases && s.leases[todo[0]].word == seen then 3 + 10 * |todo|
      else 5 + 10 * |todo|
    case CloseSwap(l, seen) => if l in s.leases && s.leases[l].word == seen then 7 else 9
    case CloseLoad(_) => 8
  }

  /** A borrow takes at most seven turns to unwind, including the retirement of its lease. */
  function Rank(s: Shared, g: Goroutine): nat {
    Ahead(s, g.pc) + 7 * |g.held|
  }

  /** A turn in which a native call, if there is one, returns without a token. */
  lemma RankDecreases(s: Shared, g: Goroutine)
    requires GoroutineOk(s.leases.Keys, g) && g.pc != Idle
    ensures var after := StepOne(s, g, Answer(false)); Rank(after.0, after.1) < Rank(s, g)
  {
  }

  /** `more` continues `schedule` without starting an operation or a close. */
  ghost predicate Continues(schedule: seq<Turn>, more: seq<Turn>) {
    schedule <= more && forall k :: |schedule| <= k < |more| ==> more[k].choice == Answer(false)
  }

  /** Finishing one goroutine; the others stay where they are. */
  lemma {:induction false} FinishOne(n: nat, schedule: seq<Turn>, i: nat) returns (more: seq<Turn>)
    requires i < |Run(Init(n), schedule).goroutines|
    ensures Continues(schedule, more)
    ensures |Run(Init(n), more).goroutines| == |Run(Init(n), schedule).goroutines|
    ensures Run(Init(n), more).goroutines[i].pc == Idle
    ensures forall j :: 0 <= j < |Run(Init(n), schedule).goroutines| && j != i ==>
              Run(Init(n), more).goroutines[j] == Run(Init(n), schedule).goroutines[j]
    decreases Rank(Run(Init(n), schedule).shared, Run(Init(n), schedule).goroutines[i])
  {
    var w := Run(Init(n), schedule);
    more := schedule;
    if w.goroutines[i].pc != Idle {
      var next := schedule + [Turn(i, Answer(false))];
      assert next[..|next| - 1] == schedule;
      RunKeepsInv(n, schedule);
      RankDecreases(w.shared, w.goroutines[i]);
      more := FinishOne(n, next, i);
    }
  }

  lemma {:induction false} FinishFrom(n: nat, schedule: seq<Turn>, i: nat) returns (more: seq<Turn>)
    requires i <= |Run(Init(n), schedule).goroutines|
    requires forall j :: 0 <= j < i ==> Run(Init(n), schedule).goroutines[j].pc == Idle
    ensures Continues(schedule, more) && AllIdle(Run(Init(n), more))
    decreases |Run(Init(n), schedule).goroutines| - i
  {
    more := schedule;
    if i < |Run(Init(n), schedule).goroutines| {
      var next := FinishOne(n, schedule, i);
      more := FinishFrom(n, next, i + 1);
    }
  }

  /**
   Every run can be continued to rest without starting anything, if native calls return; what
   `QuiescentOutcome` and `ReleasedIffAllClosed` say is then true of the state it reaches.
   */
  lemma ComesToRest(n: nat, schedule: seq<Turn>) returns (more: seq<Turn>)
    ensures Continues(schedule, more) && AllIdle(Run(Init(n), more))
    ensures var w := Run(Init(n), more);
            w.shared.ledger.resourceReleases == if forall l :: l in w.shared.leases ==> Closed(w, l) then 1 else 0
  {
    more := FinishFrom(n, schedule, 0);
    ReleasedIffAllClosed(n, more);
  }
}
