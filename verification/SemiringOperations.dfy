/**
 What the operations of a Go semiring context do: which leases an operation holds while its
 native call runs and which tokens the call is given, when an operation reaches its native call
 and when it is turned away, and which leases are closed in the end.

 An operation is recovered from the schedule, as the newest one its goroutine was started on, and
 what it is said to need is said by cases on the operation.
 */
module SemiringOperations {
  import opened Interop
  import opened AtomicWord
  import opened SemiringLifetime
  import opened SemiringInvariant
  import opened SemiringSafety
  import opened SemiringTheorems

  // ---------------------------------------------------------------- the operation a goroutine is in

  ghost predicate StartsOperation(n: nat, schedule: seq<Turn>, i: nat)
    requires schedule != []
  {
    var w, turn := Run(Init(n), schedule[..|schedule| - 1]), schedule[|schedule| - 1];
    turn.goroutine == i < |w.goroutines| && w.goroutines[i].pc.Idle? && turn.choice.Start?
  }

  /** The newest operation goroutine `i` was started on. */
  ghost function Started(n: nat, schedule: seq<Turn>, i: nat): Option<Operation> {
    if schedule == [] then None
    else if StartsOperation(n, schedule, i) then Some(schedule[|schedule| - 1].choice.op)
    else Started(n, schedule[..|schedule| - 1], i)
  }

  function Reversed(ls: seq<LeaseId>): seq<LeaseId> {
    if ls == [] then [] else Reversed(ls[1..]) + [ls[0]]
  }

  lemma {:induction false} ReversedAt(ls: seq<LeaseId>, k: nat)
    requires k < |ls|
    ensures |Reversed(ls)| == |ls| && Reversed(ls)[k] == ls[|ls| - 1 - k]
  {
    if |ls| > 1 {
      ReversedAt(ls[1..], if k < |ls| - 1 then k else 0);
    }
  }

  /** What is held and what is still to be borrowed are the leases of the operation. */
  ghost predicate InOperation(op: Option<Operation>, g: Goroutine) {
    match g.pc
    case AcquireLoad(todo) => op.Some? && Reversed(g.held) + todo == Borrowed(op.value)
    case AcquireSwap(todo, _) => op.Some? && Reversed(g.held) + todo == Borrowed(op.value)
    case _ => Native(g.pc) ==> op.Some? && Reversed(g.held) == Borrowed(op.value)
  }

  lemma InOperationStep(s: Shared, g: Goroutine, choice: Choice, op: Option<Operation>)
    requires GoroutineOk(s.leases.Keys, g) && InOperation(op, g)
    ensures InOperation(if g.pc.Idle? && choice.Start? then Some(choice.op) else op, StepOne(s, g, choice).1)
  {
    var g' := StepOne(s, g, choice).1;
    match g.pc
    case Idle =>
      if choice.Start? {
        assert Reversed(g'.held) + Borrowed(choice.op) == Borrowed(choice.op);
      }
    case AcquireLoad(todo) =>
      assert Reversed(g.held) + [] == Reversed(g.held);
    case AcquireSwap(todo, seen) =>
      if g'.pc == AcquireLoad(todo[1..]) && g'.held == [todo[0]] + g.held {
        assert Reversed(g'.held) == Reversed(g.held) + [todo[0]];
        assert Reversed(g.held) + [todo[0]] + todo[1..] == Reversed(g.held) + todo;
      }
    case _ =>
  }

  lemma {:induction false} RunInOperation(n: nat, schedule: seq<Turn>, i: nat)
    requires i < |Run(Init(n), schedule).goroutines|
    ensures InOperation(Started(n, schedule, i), Run(Init(n), schedule).goroutines[i])
  {
    if schedule != [] {
      var w, turn := Run(Init(n), schedule[..|schedule| - 1]), schedule[|schedule| - 1];
      RunKeepsInv(n, schedule[..|schedule| - 1]);
      RunInOperation(n, schedule[..|schedule| - 1], i);
      if turn.goroutine == i {
        InOperationStep(w.shared, w.goroutines[i], turn.choice, Started(n, schedule[..|schedule| - 1], i));
      }
    }
  }

  // ---------------------------------------------------------------- what an operation holds

  /** The leases an operation needs, the newest borrow first. */
  ghost predicate HoldsFor(op: Operation, held: seq<LeaseId>) {
    match op
    case Nullary => held == [ContextLease]
    case Unary(v) => held == [v]
    case Binary(l, r) => held == [ContextLease, r, l]
    case Many(vs) =>
      |held| == |vs| + 1 && held[0] == ContextLease && forall k :: 0 <= k < |vs| ==> vs[k] == held[|vs| - k]
  }

  /** The values an operation is given. */
  predicate Names(op: Operation, l: LeaseId) {
    match op
    case Nullary => false
    case Unary(v) => l == v
    case Binary(left, right) => l == left || l == right
    case Many(vs) => l in vs
  }

  lemma HoldsWhatItBorrowed(op: Operation, held: seq<LeaseId>)
    requires Reversed(held) == Borrowed(op)
    ensures HoldsFor(op, held)
    ensures forall t :: t in Operands(held) <==> Names(op, ValueLease(t))
  {
    var all := Borrowed(op);
    if held != [] {
      ReversedAt(held, 0);
    }
    assert |held| == |all|;
    forall k | 0 <= k < |held| ensures held[k] == all[|held| - 1 - k] {
      ReversedAt(held, |held| - 1 - k);
    }
    forall l: LeaseId | l.ValueLease? ensures l in held <==> Names(op, l) {
      if Names(op, l) {
        assert l in all;
        var k :| 0 <= k < |all| && all[k] == l;
        assert held[|held| - 1 - k] == l;
      }
      if l in held {
        var k :| 0 <= k < |held| && held[k] == l;
        assert all[|held| - 1 - k] == l;
      }
    }
    forall t ensures t in Operands(held) <==> Names(op, ValueLease(t)) {
      assert t in Operands(held) <==> ValueLease(t) in held;
    }
  }

  /**
   Whenever a goroutine is about to make its native call, is inside it, or has its result in hand,
   it holds exactly the leases of the operation it was started on, in every reachable state.
   */
  lemma HeldForOperation(n: nat, schedule: seq<Turn>, i: nat)
    requires i < |Run(Init(n), schedule).goroutines| && Native(Run(Init(n), schedule).goroutines[i].pc)
    ensures Started(n, schedule, i).Some?
    ensures HoldsFor(Started(n, schedule, i).value, Run(Init(n), schedule).goroutines[i].held)
  {
    RunInOperation(n, schedule, i);
    HoldsWhatItBorrowed(Started(n, schedule, i).value, Run(Init(n), schedule).goroutines[i].held);
  }

  /** A step in which the tokens given to a native call are reported. */
  ghost predicate Reports(w: World, w': World, i: nat, tokens: set<nat>) {
    && i < |w'.goroutines| && w'.goroutines[i].pc.InCall?
    && w'.shared.ledger == Observe(w.shared.ledger, Operate(tokens))
  }

  /**
   The call is given exactly the tokens of the values the operation names; they are issued and not
   released, and the resource is not released.
   */
  lemma CallGetsItsOperands(n: nat, schedule: seq<Turn>, i: nat, choice: Choice)
    requires i < |Run(Init(n), schedule).goroutines| && Run(Init(n), schedule).goroutines[i].pc.Calling?
    ensures var w := Run(Init(n), schedule);
            var tokens := Operands(w.goroutines[i].held);
            && Started(n, schedule, i).Some? && Reports(w, Step(w, Turn(i, choice)), i, tokens)
            && (forall t :: t in tokens <==> Names(Started(n, schedule, i).value, ValueLease(t)))
            && (forall t :: t in tokens ==> t < w.shared.ledger.issued && t !in w.shared.ledger.spent)
            && w.shared.ledger.resourceReleases == 0
  {
    var w := Run(Init(n), schedule);
    var g := w.goroutines[i];
    RunInOperation(n, schedule, i);
    HoldsWhatItBorrowed(Started(n, schedule, i).value, g.held);
    RunKeepsInv(n, schedule);
    HeldLive(w.shared, w.goroutines, i);
    assert GoroutineOk(w.shared.leases.Keys, g);
    SumBacks(w.shared, w.goroutines, i);
    BorrowKeepsAlive(w.shared, Sum(w.goroutines), g.held[0]);
  }

  /**
   While the call runs and its result is in hand, the same holds of its operands: none of them is
   released under it, however the others interleave.
   */
  lemma OperandsOutlastCall(n: nat, schedule: seq<Turn>, i: nat, t: nat)
    requires i < |Run(Init(n), schedule).goroutines| && Native(Run(Init(n), schedule).goroutines[i].pc)
    requires Started(n, schedule, i).Some? && Names(Started(n, schedule, i).value, ValueLease(t))
    ensures var ledger := Run(Init(n), schedule).shared.ledger;
            t < ledger.issued && t !in ledger.spent && ledger.resourceReleases == 0
  {
    var w := Run(Init(n), schedule);
    var g := w.goroutines[i];
    RunInOperation(n, schedule, i);
    HoldsWhatItBorrowed(Started(n, schedule, i).value, g.held);
    assert t in Operands(g.held);
    OperandsStayLive(n, schedule, i, t);
    RunKeepsInv(n, schedule);
    assert GoroutineOk(w.shared.leases.Keys, g);
    SumBacks(w.shared, w.goroutines, i);
    BorrowKeepsAlive(w.shared, Sum(w.goroutines), g.held[0]);
  }

  ghost predicate LegalRelease(ledger: Ledger, pc: Pc) {
    match pc
    case Reject(t) => t < ledger.issued && t !in ledger.spent && ledger.resourceReleases == 0
    case FreeToken(l) =>
      l.ValueLease? && l.id < ledger.issued && l.id !in ledger.spent && ledger.resourceReleases == 0
    case FreeCore => ledger.resourceReleases == 0 && forall t: nat :: t < ledger.issued ==> t in ledger.spent
    case _ => true
  }

  lemma UnviolatedIsLegal(s: Shared, g: Goroutine)
    requires Unsuppressed(s, g) && !StepOne(s, g, Answer(false)).0.ledger.violated
    ensures LegalRelease(s.ledger, g.pc)
  {
  }

  /** The releases said without the ledger's verdict: no token twice, and the resource last. */
  lemma ReleasesAreLegal(n: nat, schedule: seq<Turn>, i: nat)
    requires i < |Run(Init(n), schedule).goroutines|
    ensures LegalRelease(Run(Init(n), schedule).shared.ledger, Run(Init(n), schedule).goroutines[i].pc)
  {
    var w, more := Run(Init(n), schedule), schedule + [Turn(i, Answer(false))];
    assert more[..|more| - 1] == schedule;
    RunKeepsInv(n, schedule);
    NoIllegalNativeCall(n, more);
    SumBacks(w.shared, w.goroutines, i);
    StepUnsuppressed(w.shared, Sum(w.goroutines), w.goroutines[i]);
    UnviolatedIsLegal(w.shared, w.goroutines[i]);
  }

  // ---------------------------------------------------------------- when an operation reaches its call

  /** How often an operation borrows a lease. */
  function Occurrences(op: Operation, l: LeaseId): nat {
    match op
    case Nullary => if l == ContextLease then 1 else 0
    case Unary(v) => if l == v then 1 else 0
    case Binary(left, right) =>
      (if l == left then 1 else 0) + (if l == right then 1 else 0) + (if l == ContextLease then 1 else 0)
    case Many(vs) => multiset(vs)[l] + (if l == ContextLease then 1 else 0)
  }

  lemma BorrowedOccurs(op: Operation, l: LeaseId)
    ensures multiset(Borrowed(op))[l] == Occurrences(op, l)
  {
  }

  function Iterate<T>(f: T -> T, x: T, k: nat): T {
    if k == 0 then x else f(Iterate(f, x, k - 1))
  }

  lemma {:induction false} IterateFurther<T>(f: T -> T, x: T, j: nat, k: nat)
    ensures Iterate(f, x, j + k) == Iterate(f, Iterate(f, x, j), k)
  {
    if k > 0 {
      IterateFurther(f, x, j, k - 1);
    }
  }

  function Mover(choice: Choice): After -> After {
    (a: After) => StepOne(a.0, a.1, choice)
  }

  /** `k` steps of one goroutine. */
  function Solo(s: Shared, g: Goroutine, choice: Choice, k: nat): After {
    Iterate(Mover(choice), (s, g), k)
  }

  lemma SoloFurther(s: Shared, g: Goroutine, choice: Choice, j: nat, k: nat)
    ensures var middle := Solo(s, g, choice, j);
            Solo(s, g, choice, j + k) == Solo(middle.0, middle.1, choice, k)
  {
    IterateFurther(Mover(choice), (s, g), j, k);
  }

  lemma SoloStep(s: Shared, g: Goroutine, choice: Choice)
    ensures Solo(s, g, choice, 0) == (s, g) && Solo(s, g, choice, 1) == StepOne(s, g, choice)
  {
    assert Iterate(Mover(choice), (s, g), 0) == (s, g);
    assert Iterate(Mover(choice), (s, g), 1) == Mover(choice)(Iterate(Mover(choice), (s, g), 0));
  }

  /** The lease exists, is open, and has room for `more` borrows. */
  predicate Room(s: Shared, l: LeaseId, more: nat) {
    l in s.leases && !HasClosedBit(s.leases[l].word) && s.leases[l].word + more < 0x8000_0000_0000_0000
  }

  ghost predicate AllRoom(s: Shared, todo: seq<LeaseId>) {
    forall l :: l in todo ==> Room(s, l, multiset(todo)[l])
  }

  /** All leases have room exactly if the first one has, and then the rest still have. */
  lemma RoomAfterFirst(s: Shared, todo: seq<LeaseId>)
    requires todo != []
    ensures AllRoom(s, todo) <==>
            Room(s, todo[0], 1) && AllRoom(SetWord(s, todo[0], s.leases[todo[0]].word + 1), todo[1..])
  {
    var rest := todo[1..];
    assert todo == [todo[0]] + rest;
    assert multiset(todo) == multiset{todo[0]} + multiset(rest);
    if Room(s, todo[0], 1) {
      var s' := SetWord(s, todo[0], s.leases[todo[0]].word + 1);
      if AllRoom(s, todo) {
        forall l | l in rest ensures Room(s', l, multiset(rest)[l]) {
          assert l in todo;
        }
      }
      if AllRoom(s', rest) {
        forall l | l in todo ensures Room(s, l, multiset(todo)[l]) {
          assert l in rest || l == todo[0];
          assert l in rest ==> Room(s', l, multiset(rest)[l]);
        }
      }
    } else {
      assert todo[0] in todo && multiset(todo)[todo[0]] >= 1;
    }
  }

  predicate Acquiring(pc: Pc) {
    pc.AcquireLoad? || pc.AcquireSwap?
  }

  /** One lease is borrowed in two steps, or not at all. */
  lemma SoloOne(s: Shared, g: Goroutine, choice: Choice)
    requires g.pc.AcquireLoad? && g.pc.todo != []
    ensures var l := g.pc.todo[0];
            if Room(s, l, 1) then
              && Acquiring(Solo(s, g, choice, 1).1.pc)
              && Solo(s, g, choice, 2)
                 == (SetWord(s, l, s.leases[l].word + 1), Goroutine(AcquireLoad(g.pc.todo[1..]), [l] + g.held))
            else Solo(s, g, choice, 1) == (s, g.(pc := Releasing))
  {
    var l := g.pc.todo[0];
    SoloStep(s, g, choice);
    if Room(s, l, 1) {
      var next := g.(pc := AcquireSwap(g.pc.todo, s.leases[l].word));
      assert StepOne(s, g, choice) == (s, next);
      SoloFurther(s, g, choice, 1, 1);
      SoloStep(s, next, choice);
    }
  }

  /** Every step before the last one was about a borrow. */
  ghost predicate AcquiresFor(s: Shared, g: Goroutine, choice: Choice, k: nat) {
    forall j :: 0 <= j < k ==> Acquiring(Solo(s, g, choice, j).1.pc)
  }

  lemma AcquiresLonger(s: Shared, g: Goroutine, choice: Choice, rest: nat)
    requires Acquiring(g.pc) && Acquiring(Solo(s, g, choice, 1).1.pc)
    requires AcquiresFor(Solo(s, g, choice, 2).0, Solo(s, g, choice, 2).1, choice, rest)
    ensures AcquiresFor(s, g, choice, 2 + rest)
  {
    SoloStep(s, g, choice);
    var middle := Solo(s, g, choice, 2);
    forall j | 0 <= j < 2 + rest ensures Acquiring(Solo(s, g, choice, j).1.pc) {
      if j >= 2 {
        SoloFurther(s, g, choice, 2, j - 2);
        assert Acquiring(Solo(middle.0, middle.1, choice, j - 2).1.pc);
      }
    }
  }

  lemma NoneNeedsRoom(s: Shared, g: Goroutine, choice: Choice)
    requires g.pc == AcquireLoad([])
    ensures AllRoom(s, []) && Solo(s, g, choice, 1) == (s, g.(pc := Calling)) && AcquiresFor(s, g, choice, 1)
  {
    SoloStep(s, g, choice);
  }

  /**
   A goroutine that runs alone gets all its borrows exactly if all leases have room, and it makes no
   native call on the way.
   */
  lemma {:induction false} SoloAcquire(s: Shared, g: Goroutine, choice: Choice, todo: seq<LeaseId>) returns (k: nat)
    requires g.pc == AcquireLoad(todo)
    ensures k > 0 && Solo(s, g, choice, k).1.pc == if AllRoom(s, todo) then Calling else Releasing
    ensures AcquiresFor(s, g, choice, k)
    decreases |todo|
  {
    if todo == [] {
      k := 1;
      NoneNeedsRoom(s, g, choice);
    } else {
      SoloStep(s, g, choice);
      SoloOne(s, g, choice);
      RoomAfterFirst(s, todo);
      k := 1;
      if Room(s, todo[0], 1) {
        var middle := Solo(s, g, choice, 2);
        var rest := SoloAcquire(middle.0, middle.1, choice, todo[1..]);
        k := 2 + rest;
        SoloFurther(s, g, choice, 2, rest);
        AcquiresLonger(s, g, choice, rest);
      }
    }
  }

  /** Goroutine `i` takes `k` more turns with this choice, and no other does. */
  function Alone(schedule: seq<Turn>, i: nat, choice: Choice, k: nat): seq<Turn> {
    if k == 0 then schedule else Alone(schedule, i, choice, k - 1) + [Turn(i, choice)]
  }

  function RunAlone(n: nat, schedule: seq<Turn>, i: nat, choice: Choice, k: nat): World {
    Run(Init(n), Alone(schedule, i, choice, k))
  }

  lemma {:induction false} AfterIsSolo(n: nat, schedule: seq<Turn>, i: nat, choice: Choice, k: nat)
    requires i < |Run(Init(n), schedule).goroutines|
    ensures var w := Run(Init(n), schedule);
            var solo := Solo(w.shared, w.goroutines[i], choice, k);
            RunAlone(n, schedule, i, choice, k) == World(solo.0, w.goroutines[i := solo.1])
  {
    var w := Run(Init(n), schedule);
    if k == 0 {
      assert w.goroutines[i := w.goroutines[i]] == w.goroutines;
      SoloStep(w.shared, w.goroutines[i], choice);
    } else {
      AfterIsSolo(n, schedule, i, choice, k - 1);
      var more := Alone(schedule, i, choice, k);
      assert more[..|more| - 1] == Alone(schedule, i, choice, k - 1);
      var before := Solo(w.shared, w.goroutines[i], choice, k - 1);
      var after := StepOne(before.0, before.1, choice);
      assert w.goroutines[i := before.1][i := after.1] == w.goroutines[i := after.1];
    }
  }

  /** Every lease the operation needs is open and admits as many more borrows as it makes. */
  ghost predicate Admitted(w: World, op: Operation) {
    forall l :: Occurrences(op, l) > 0 ==>
      && l in w.shared.leases && !Closed(w, l)
      && Sum(w.goroutines)[Borrow(l)] + Occurrences(op, l) < 0x8000_0000_0000_0000
  }

  lemma AdmittedIff(n: nat, schedule: seq<Turn>, op: Operation)
    ensures Admitted(Run(Init(n), schedule), op) <==> AllRoom(Run(Init(n), schedule).shared, Borrowed(op))
  {
    var w := Run(Init(n), schedule);
    forall l ensures l in Borrowed(op) <==> Occurrences(op, l) > 0 {
      BorrowedOccurs(op, l);
    }
    forall l | l in w.shared.leases
      ensures !Closed(w, l) ==> w.shared.leases[l].word == Sum(w.goroutines)[Borrow(l)]
    {
      WordCountsBorrows(n, schedule, l);
    }
    forall l | l in Borrowed(op)
      ensures Room(w.shared, l, multiset(Borrowed(op))[l]) <==>
              && l in w.shared.leases && !Closed(w, l)
              && Sum(w.goroutines)[Borrow(l)] + Occurrences(op, l) < 0x8000_0000_0000_0000
    {
      BorrowedOccurs(op, l);
    }
  }

  ghost predicate IsAcquiring(w: World, i: nat) {
    i < |w.goroutines| && Acquiring(w.goroutines[i].pc)
  }

  /**
   In every reachable state, an operation that an idle goroutine is started on and that runs alone
   reaches its native call exactly if every lease it needs is open and has room; otherwise it is
   turned away before.
   */
  lemma ReachesCallIff(n: nat, schedule: seq<Turn>, i: nat, op: Operation) returns (k: nat)
    requires i < |Run(Init(n), schedule).goroutines| && Run(Init(n), schedule).goroutines[i].pc.Idle?
    ensures k > 0 && i < |RunAlone(n, schedule, i, Start(op), k).goroutines|
    ensures RunAlone(n, schedule, i, Start(op), k).goroutines[i].pc
            == if Admitted(Run(Init(n), schedule), op) then Calling else Releasing
    ensures forall j :: 0 < j < k ==> IsAcquiring(RunAlone(n, schedule, i, Start(op), j), i)
  {
    var w := Run(Init(n), schedule);
    var g := w.goroutines[i];
    SoloStep(w.shared, g, Start(op));
    assert Solo(w.shared, g, Start(op), 1) == (w.shared, g.(pc := AcquireLoad(Borrowed(op))));
    var rest := SoloAcquire(w.shared, g.(pc := AcquireLoad(Borrowed(op))), Start(op), Borrowed(op));
    k := 1 + rest;
    SoloFurther(w.shared, g, Start(op), 1, rest);
    AdmittedIff(n, schedule, op);
    AfterIsSolo(n, schedule, i, Start(op), k);
    forall j | 0 < j < k ensures IsAcquiring(RunAlone(n, schedule, i, Start(op), j), i) {
      SoloFurther(w.shared, g, Start(op), 1, j - 1);
      AfterIsSolo(n, schedule, i, Start(op), j);
    }
  }

  /**
   And in no interleaving is an operation turned away for another reason than a lease that is nil,
   closed or full.
   */
  lemma TurnedAwayOnlyIf(n: nat, schedule: seq<Turn>, turn: Turn)
    requires turn.goroutine < |Run(Init(n), schedule).goroutines|
    requires Acquiring(Run(Init(n), schedule).goroutines[turn.goroutine].pc)
    requires var pc := Step(Run(Init(n), schedule), turn).goroutines[turn.goroutine].pc; !Acquiring(pc) && pc != Calling
    ensures var w := Run(Init(n), schedule);
            var op := Started(n, schedule, turn.goroutine);
            && op.Some? && Step(w, turn).goroutines[turn.goroutine].pc == Releasing
            && exists l :: Occurrences(op.value, l) > 0
                           && (l !in w.shared.leases || Closed(w, l)
                               || Sum(w.goroutines)[Borrow(l)] + 1 >= 0x8000_0000_0000_0000)
  {
    var w := Run(Init(n), schedule);
    var g := w.goroutines[turn.goroutine];
    RunInOperation(n, schedule, turn.goroutine);
    var op := Started(n, schedule, turn.goroutine).value;
    var l := g.pc.todo[0];
    assert l in Reversed(g.held) + g.pc.todo;
    BorrowedOccurs(op, l);
    if l in w.shared.leases {
      WordCountsBorrows(n, schedule, l);
    }
  }
}
