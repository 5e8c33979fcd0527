/**
 Which leases of a Go semiring context are closed, said with the calls of `Close` in the schedule,
 and what becomes of a token that a native call hands out.
 */
module SemiringClosing {
  import opened Interop
  import opened AtomicWord
  import opened SemiringLifetime
  import opened SemiringInvariant
  import opened SemiringSafety
  import opened SemiringTheorems
  import opened SemiringOperations

  predicate IsClosed(s: Shared, l: LeaseId) {
    l in s.leases && HasClosedBit(s.leases[l].word)
  }

  /** A goroutine that is in `close` of the lease and has not found or set the close bit yet. */
  predicate Closing(pc: Pc, l: LeaseId) {
    (pc.CloseLoad? || pc.CloseSwap?) && pc.lease == l
  }

  /** A call of `Close` on an existing lease. */
  predicate StartsClosing(s: Shared, g: Goroutine, choice: Choice, l: LeaseId) {
    g.pc.Idle? && choice == Close(l) && l in s.leases
  }

  /** Turn `k` of the schedule is such a call. */
  ghost predicate StartsClose(n: nat, schedule: seq<Turn>, l: LeaseId, k: nat) {
    && k < |schedule|
    && var w := Run(Init(n), schedule[..k]);
       schedule[k].goroutine < |w.goroutines|
       && StartsClosing(w.shared, w.goroutines[schedule[k].goroutine], schedule[k].choice, l)
  }

  ghost predicate CloseStarted(n: nat, schedule: seq<Turn>, l: LeaseId) {
    exists k :: StartsClose(n, schedule, l, k)
  }

  ghost predicate AnyClosing(gs: seq<Goroutine>, l: LeaseId) {
    exists i :: 0 <= i < |gs| && Closing(gs[i].pc, l)
  }

  /** The lease is closed, or somebody is about to close it. */
  ghost predicate CloseUnderWay(w: World, l: LeaseId) {
    IsClosed(w.shared, l) || AnyClosing(w.goroutines, l)
  }

  // ---------------------------------------------------------------- one step

  /** What a step does to the close bit of a lease. */
  ghost predicate ClosesAsSaid(s: Shared, g: Goroutine, after: After, starts: bool, l: LeaseId) {
    && (IsClosed(s, l) ==> IsClosed(after.0, l))
    && (IsClosed(after.0, l) ==> IsClosed(s, l) || Closing(g.pc, l))
    && (Closing(g.pc, l) ==> IsClosed(after.0, l) || Closing(after.1.pc, l))
    && (Closing(after.1.pc, l) ==> Closing(g.pc, l) || starts)
    && (starts ==> Closing(after.1.pc, l))
  }

  /** Borrowing leaves the bit alone, and so does giving back. */
  lemma BorrowStep(s: Shared, c: Tally, g: Goroutine, choice: Choice, l: LeaseId)
    requires Balanced(s, c) && GoroutineOk(s.leases.Keys, g) && Backed(s, c, g)
    requires g.pc.AcquireSwap? || g.pc.Releasing?
    ensures ClosesAsSaid(s, g, StepOne(s, g, choice), false, l)
  {
    if g.pc.Releasing? && g.held != [] {
      ClaimedLease(s, c, g.held[0]);
    }
  }

  /** A new lease is open, and its identifier is new. */
  lemma AdoptStep(s: Shared, c: Tally, g: Goroutine, choice: Choice, l: LeaseId)
    requires Balanced(s, c) && Backed(s, c, g) && g.pc.RetainSwap?
    ensures ClosesAsSaid(s, g, StepOne(s, g, choice), false, l)
  {
    if s.references == g.pc.count {
      assert TokenOk(s, c, g.pc.token);
      assert ValueLease(g.pc.token) !in s.leases;
    }
  }

  lemma OtherStep(s: Shared, g: Goroutine, choice: Choice, l: LeaseId)
    requires !g.pc.AcquireSwap? && !g.pc.Releasing? && !g.pc.RetainSwap?
    requires GoroutineOk(s.leases.Keys, g)
    ensures ClosesAsSaid(s, g, StepOne(s, g, choice), StartsClosing(s, g, choice, l), l)
  {
  }

  lemma StepCloses(s: Shared, c: Tally, g: Goroutine, choice: Choice, l: LeaseId)
    requires Balanced(s, c) && GoroutineOk(s.leases.Keys, g) && Backed(s, c, g)
    ensures ClosesAsSaid(s, g, StepOne(s, g, choice), StartsClosing(s, g, choice, l), l)
  {
    match g.pc
    case AcquireSwap(_, _) => BorrowStep(s, c, g, choice, l);
    case Releasing => BorrowStep(s, c, g, choice, l);
    case RetainSwap(_, _) => AdoptStep(s, c, g, choice, l);
    case _ => OtherStep(s, g, choice, l);
  }

  /** A step starts or continues a close exactly if one is under way afterwards. */
  lemma StepUnderWay(w: World, turn: Turn, l: LeaseId)
    requires Inv(w)
    ensures CloseUnderWay(Step(w, turn), l) <==> (CloseUnderWay(w, l) ||
            (turn.goroutine < |w.goroutines|
             && StartsClosing(w.shared, w.goroutines[turn.goroutine], turn.choice, l)))
  {
    var i := turn.goroutine;
    if i < |w.goroutines| {
      var after := StepOne(w.shared, w.goroutines[i], turn.choice);
      SumBacks(w.shared, w.goroutines, i);
      StepCloses(w.shared, Sum(w.goroutines), w.goroutines[i], turn.choice, l);
      OneMoved(w.goroutines, i, after.1, l);
    }
  }

  lemma OneMoved(gs: seq<Goroutine>, i: nat, g: Goroutine, l: LeaseId)
    requires i < |gs|
    ensures AnyClosing(gs[i := g], l) <==>
            Closing(g.pc, l) || exists j :: 0 <= j < |gs| && j != i && Closing(gs[j].pc, l)
  {
    var gs' := gs[i := g];
    if j :| 0 <= j < |gs'| && Closing(gs'[j].pc, l) {
      assert j != i ==> Closing(gs[j].pc, l);
    }
    if Closing(g.pc, l) {
      assert Closing(gs'[i].pc, l);
    }
    if j :| 0 <= j < |gs| && j != i && Closing(gs[j].pc, l) {
      assert Closing(gs'[j].pc, l);
    }
  }

  // ---------------------------------------------------------------- whole runs

  lemma CloseStartedLast(n: nat, schedule: seq<Turn>, l: LeaseId)
    requires schedule != []
    ensures var m := |schedule| - 1;
            CloseStarted(n, schedule, l) <==> CloseStarted(n, schedule[..m], l) || StartsClose(n, schedule, l, m)
  {
    var m := |schedule| - 1;
    forall k | 0 <= k < m ensures StartsClose(n, schedule, l, k) <==> StartsClose(n, schedule[..m], l, k) {
      assert schedule[..m][..k] == schedule[..k];
    }
  }

  /** In every reachable state a close is under way, or done, exactly for the leases `Close` was called on. */
  lemma {:induction false} CloseTracked(n: nat, schedule: seq<Turn>, l: LeaseId)
    ensures CloseStarted(n, schedule, l) <==> CloseUnderWay(Run(Init(n), schedule), l)
  {
    if schedule != [] {
      var m := |schedule| - 1;
      CloseTracked(n, schedule[..m], l);
      CloseStartedLast(n, schedule, l);
      RunKeepsInv(n, schedule[..m]);
      StepUnderWay(Run(Init(n), schedule[..m]), schedule[m], l);
    }
  }

  /** When all goroutines have finished, exactly the leases `Close` was called on are closed. */
  lemma ClosedIffStarted(n: nat, schedule: seq<Turn>, l: LeaseId)
    requires AllIdle(Run(Init(n), schedule))
    ensures Closed(Run(Init(n), schedule), l) <==> CloseStarted(n, schedule, l)
  {
    CloseTracked(n, schedule, l);
  }

  /**
   So then a value's token is released exactly if `Close` was called on the value, and the resource,
   once, exactly if it was called on the context and on every value.
   */
  lemma ReleasedIffCloseCalled(n: nat, schedule: seq<Turn>)
    requires AllIdle(Run(Init(n), schedule))
    ensures var w := Run(Init(n), schedule);
            && (forall t: nat :: ValueLease(t) in w.shared.leases ==>
                  (t in w.shared.ledger.spent <==> CloseStarted(n, schedule, ValueLease(t))))
            && w.shared.ledger.resourceReleases ==
               if forall l :: l in w.shared.leases ==> CloseStarted(n, schedule, l) then 1 else 0
  {
    var w := Run(Init(n), schedule);
    QuiescentOutcome(n, schedule);
    ReleasedIffAllClosed(n, schedule);
    forall l | l in w.shared.leases ensures Closed(w, l) <==> CloseStarted(n, schedule, l) {
      ClosedIffStarted(n, schedule, l);
    }
  }

  // ---------------------------------------------------------------- what becomes of a token

  lemma FreshToken(s: Shared, c: Tally)
    requires Balanced(s, c)
    ensures ValueLease(s.ledger.issued) !in s.leases && s.ledger.issued !in s.ledger.spent
    ensures s.references == |s.live|
  {
    assert TokenOk(s, c, s.ledger.issued);
  }

  lemma AdoptAlone(s: Shared, g: Goroutine)
    requires g.pc.InCall? && s.references > 0
    ensures var t, s' := s.ledger.issued, Solo(s, g, Answer(true), 3).0;
            s' == if s.references == MAX_INT64 then Report(Report(s, Issue), ReleaseToken(t))
                  else StepRetainSwap(Report(s, Issue), g, t, s.references).0
  {
    var t, issued := s.ledger.issued, Report(s, Issue);
    SoloStep(s, g, Answer(true));
    var first := g.(pc := RetainLoad(t));
    assert StepOne(s, g, Answer(true)) == (issued, first);
    SoloFurther(s, g, Answer(true), 1, 2);
    SoloStep(issued, first, Answer(true));
    SoloFurther(issued, first, Answer(true), 1, 1);
    var second := StepRetainLoad(issued, first, t);
    SoloStep(issued, second.1, Answer(true));
  }

  /** What becomes of token `t`, which was not issued in `s` and is in `s'`. */
  ghost predicate AdoptedOrReleased(s: Shared, s': Shared, t: nat) {
    && s'.ledger.issued == t + 1 && ValueLease(t) !in s.leases
    && if |s.live| < 0x7fff_ffff_ffff_ffff
       then ValueLease(t) in s'.leases && s'.leases[ValueLease(t)].word == 0 && t !in s'.ledger.spent
       else t in s'.ledger.spent && ValueLease(t) !in s'.leases
  }

  lemma AdoptedAlone(s: Shared, c: Tally, g: Goroutine)
    requires Balanced(s, c) && g.pc.InCall? && s.references > 0
    ensures AdoptedOrReleased(s, Solo(s, g, Answer(true), 3).0, s.ledger.issued)
  {
    FreshToken(s, c);
    AdoptAlone(s, g);
  }

  /**
   A native call that hands out a token, and whose goroutine then runs alone, leaves an open,
   unborrowed value for it, or, if 2^63 - 1 leases are live, has released it.
   */
  lemma TokenAdopted(n: nat, schedule: seq<Turn>, i: nat)
    requires i < |Run(Init(n), schedule).goroutines| && Run(Init(n), schedule).goroutines[i].pc.InCall?
    ensures var s := Run(Init(n), schedule).shared;
            AdoptedOrReleased(s, RunAlone(n, schedule, i, Answer(true), 3).shared, s.ledger.issued)
  {
    var w := Run(Init(n), schedule);
    var g := w.goroutines[i];
    RunKeepsInv(n, schedule);
    assert GoroutineOk(w.shared.leases.Keys, g);
    SumBacks(w.shared, w.goroutines, i);
    BorrowKeepsAlive(w.shared, Sum(w.goroutines), g.held[0]);
    AdoptedAlone(w.shared, Sum(w.goroutines), g);
    AfterIsSolo(n, schedule, i, Answer(true), 3);
  }
}
