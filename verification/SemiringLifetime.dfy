/**
 Lifetime of one imported semiring context in the Go binding (bindings/go/semiring.go).

 A context view and every value own a `sharedLease` (close bit and borrow count in one
 word); all leases share one `semiringCore` (an int64 reference count) whose last drop
 releases the native resource.  The machine below runs any number of goroutines over one
 core.  Every atomic load, compare-and-swap, add and native call is one step, and a run is
 an arbitrary schedule of such steps, so a theorem about `Run(Init(n), schedule)` for all
 `n` and `schedule` is a theorem about all interleavings.  Operations nested inside a
 callback are covered too: the nested operation is run by another goroutine while the
 outer one is not scheduled.

 Native calls are reported to a `Ledger`, which is the specification of the provider side:
 it remembers which tokens were issued and released and whether the resource was
 released, and records a violation for every illegal call.
 */
module SemiringLifetime {
  import opened Interop
  import opened AtomicWord

  /** The lease of the context view, or of the value that owns token `id`. */
  datatype LeaseId = ContextLease | ValueLease(id: nat)

  /** `sharedLease`: its word, and whether its `sync.Once` has fired. */
  datatype SharedLease = SharedLease(word: Word, finished: bool)

  // ---------------------------------------------------------------- provider ledger

  datatype NativeCall =
    | Operate(operands: set<nat>)   // any operation on the core's raw resource, with the tokens it is given
    | Issue                   // an operation hands out the next owned token
    | ReleaseToken(token: nat)
    | ReleaseResource

  /** Tokens `0 .. issued` were handed out; those in `spent` were released.  `log` has every call, in order. */
  datatype Ledger = Ledger(issued: nat, spent: set<nat>, resourceReleases: nat, violated: bool, log: seq<NativeCall>)

  function Observe(g: Ledger, call: NativeCall): Ledger {
    var g := g.(log := g.log + [call], violated := g.violated || g.resourceReleases > 0);
    match call
    case Operate(operands) =>
      g.(violated := g.violated || exists t :: t in operands && (t >= g.issued || t in g.spent))
    case Issue => g.(issued := g.issued + 1)
    case ReleaseToken(t) =>
      g.(spent := g.spent + {t}, violated := g.violated || t >= g.issued || t in g.spent)
    case ReleaseResource =>
      g.(resourceReleases := g.resourceReleases + 1,
         violated := g.violated || exists t: nat :: t < g.issued && t !in g.spent)
  }

  // ---------------------------------------------------------------- goroutines

  /** The public operations, reduced to the leases they borrow, in order. */
  datatype Operation =
    | Nullary                                   // Zero, One, NewValue, WithResource, Properties
    | Unary(value: LeaseId)                     // Clone, Star, StableBytes, Quantize
    | Binary(left: LeaseId, right: LeaseId)     // Plus, Times, Divide, Equal, NaturalOrder
    | Many(values: seq<LeaseId>)                // PlusMany, TimesMany

  function Borrowed(op: Operation): (ls: seq<LeaseId>)
    ensures ls != []
  {
    match op
    case Nullary => [ContextLease]
    case Unary(v) => [v]
    case Binary(l, r) => [l, r, ContextLease]
    case Many(vs) => vs + [ContextLease]
  }

  datatype Pc =
    | Idle
    | AcquireLoad(todo: seq<LeaseId>)
    | AcquireSwap(todo: seq<LeaseId>, seen: Word)
    | Calling                                   // about to enter the native operation
    | InCall                                    // inside the native operation
    | RetainLoad(token: nat)
    | RetainSwap(token: nat, count: int)
    | Reject(token: nat)                        // core.retain failed: give the token back
    | Releasing                                 // unwinding the deferred releases
    | CloseLoad(lease: LeaseId)
    | CloseSwap(lease: LeaseId, seen: Word)
    | Finish(lease: LeaseId)                    // entering the lease's sync.Once
    | FreeToken(lease: LeaseId)                 // the value's release function, first half
    | Drop(lease: LeaseId)                      // core.drop: references.Add(-1)
    | FinishCore                                // entering the core's sync.Once
    | FreeCore                                  // the native release of the resource

  /** `held` is the defer stack of acquired borrows, most recent first. */
  datatype Goroutine = Goroutine(pc: Pc, held: seq<LeaseId>)

  /** Everything goroutines share. */
  datatype Shared = Shared(
    leases: map<LeaseId, SharedLease>,
    live: set<LeaseId>,                         // leases whose core.drop has not happened
    references: int,
    coreFinished: bool,                         // the core's sync.Once
    ledger: Ledger)

  datatype World = World(shared: Shared, goroutines: seq<Goroutine>)

  /** What an idle goroutine is started on, and what a native call answers. */
  datatype Choice =
    | Start(op: Operation)
    | Close(lease: LeaseId)
    | Answer(token: bool)

  function Init(n: nat): World {
    World(Shared(map[ContextLease := SharedLease(0, false)], {ContextLease}, 1, false,
                 Ledger(0, {}, 0, false, [])),
          seq(n, i => Goroutine(Idle, [])))
  }

  // ---------------------------------------------------------------- steps

  /** Shared state and moving goroutine after a step. */
  type After = (Shared, Goroutine)

  function SetWord(s: Shared, l: LeaseId, word: Word): Shared
    requires l in s.leases
  {
    s.(leases := s.leases[l := s.leases[l].(word := word)])
  }

  function Report(s: Shared, call: NativeCall): Shared {
    s.(ledger := Observe(s.ledger, call))
  }

  /** The tokens of the borrowed values, which the native operation is given. */
  function Operands(held: seq<LeaseId>): set<nat> {
    set l | l in held && l.ValueLease? :: l.id
  }

  function StepIdle(s: Shared, g: Goroutine, choice: Choice): After {
    match choice
    case Start(op) => (s, g.(pc := AcquireLoad(Borrowed(op))))
    case Close(l) => if l in s.leases then (s, g.(pc := CloseLoad(l))) else (s, g)
    case Answer(_) => (s, g)
  }

  /** A lease outside `leases` is a nil value or a value of another context. */
  function StepAcquireLoad(s: Shared, g: Goroutine, todo: seq<LeaseId>): After {
    if todo == [] then (s, g.(pc := Calling))
    else if todo[0] !in s.leases then (s, g.(pc := Releasing))
    else if !Acquirable(s.leases[todo[0]].word) then (s, g.(pc := Releasing))
    else (s, g.(pc := AcquireSwap(todo, s.leases[todo[0]].word)))
  }

  function StepAcquireSwap(s: Shared, g: Goroutine, todo: seq<LeaseId>, seen: Word): After {
    if todo != [] && todo[0] in s.leases && s.leases[todo[0]].word == seen then
      (SetWord(s, todo[0], Increment(seen)), Goroutine(AcquireLoad(todo[1..]), [todo[0]] + g.held))
    else (s, g.(pc := AcquireLoad(todo)))
  }

  /** The native call returns: a token, or an error or a result without one. */
  function StepInCall(s: Shared, g: Goroutine, choice: Choice): After {
    match choice
    case Answer(true) => (Report(s, Issue), g.(pc := RetainLoad(s.ledger.issued)))
    case Answer(false) => (s, g.(pc := Releasing))
    case _ => (s, g)
  }

  function StepRetainLoad(s: Shared, g: Goroutine, token: nat): After {
    if s.references <= 0 || s.references == MAX_INT64 then (s, g.(pc := Reject(token)))
    else (s, g.(pc := RetainSwap(token, s.references)))
  }

  /** The new value's lease exists from the winning compare-and-swap on. */
  function StepRetainSwap(s: Shared, g: Goroutine, token: nat, count: int): After {
    if s.references == count then
      (s.(references := count + 1,
          leases := s.leases[ValueLease(token) := SharedLease(0, false)],
          live := s.live + {ValueLease(token)}), g.(pc := Releasing))
    else (s, g.(pc := RetainLoad(token)))
  }

  function StepReleasing(s: Shared, g: Goroutine): After {
    if g.held == [] then (s, g.(pc := Idle))
    else if g.held[0] !in s.leases then (s, g)
    else
      var word := AddMinusOne(s.leases[g.held[0]].word);
      (SetWord(s, g.held[0], word),
       Goroutine(if word == CLOSED_BIT then Finish(g.held[0]) else Releasing, g.held[1..]))
  }

  function StepCloseLoad(s: Shared, g: Goroutine, l: LeaseId): After {
    if l !in s.leases then (s, g)
    else if HasClosedBit(s.leases[l].word) then (s, g.(pc := Releasing))
    else (s, g.(pc := CloseSwap(l, s.leases[l].word)))
  }

  function StepCloseSwap(s: Shared, g: Goroutine, l: LeaseId, seen: Word): After {
    if l in s.leases && s.leases[l].word == seen then
      (SetWord(s, l, SetClosedBit(seen)), g.(pc := if seen == 0 then Finish(l) else Releasing))
    else (s, g.(pc := CloseLoad(l)))
  }

  function StepFinish(s: Shared, g: Goroutine, l: LeaseId): After {
    if l !in s.leases || s.leases[l].finished then (s, g.(pc := Releasing))
    else (s.(leases := s.leases[l := s.leases[l].(finished := true)]),
          g.(pc := if l.ValueLease? then FreeToken(l) else Drop(l)))
  }

  function StepFreeToken(s: Shared, g: Goroutine, l: LeaseId): After {
    (if l.ValueLease? then Report(s, ReleaseToken(l.id)) else s, g.(pc := Drop(l)))
  }

  /** A negative count panics in the code; the ledger records it as a violation. */
  function StepDrop(s: Shared, g: Goroutine, l: LeaseId): After {
    var remaining := s.references - 1;
    var s := s.(references := remaining, live := s.live - {l});
    if remaining < 0 then (s.(ledger := s.ledger.(violated := true)), g.(pc := Releasing))
    else (s, g.(pc := if remaining == 0 then FinishCore else Releasing))
  }

  function StepFinishCore(s: Shared, g: Goroutine): After {
    if s.coreFinished then (s, g.(pc := Releasing))
    else (s.(coreFinished := true), g.(pc := FreeCore))
  }

  /** One atomic step of one goroutine. */
  function StepOne(s: Shared, g: Goroutine, choice: Choice): After {
    match g.pc
    case Idle => StepIdle(s, g, choice)
    case AcquireLoad(todo) => StepAcquireLoad(s, g, todo)
    case AcquireSwap(todo, seen) => StepAcquireSwap(s, g, todo, seen)
    case Calling => (Report(s, Operate(Operands(g.held))), g.(pc := InCall))
    case InCall => StepInCall(s, g, choice)
    case RetainLoad(t) => StepRetainLoad(s, g, t)
    case RetainSwap(t, count) => StepRetainSwap(s, g, t, count)
    case Reject(t) => (Report(s, ReleaseToken(t)), g.(pc := Releasing))
    case Releasing => StepReleasing(s, g)
    case CloseLoad(l) => StepCloseLoad(s, g, l)
    case CloseSwap(l, seen) => StepCloseSwap(s, g, l, seen)
    case Finish(l) => StepFinish(s, g, l)
    case FreeToken(l) => StepFreeToken(s, g, l)
    case Drop(l) => StepDrop(s, g, l)
    case FinishCore => StepFinishCore(s, g)
    case FreeCore => (Report(s, ReleaseResource), g.(pc := Releasing))
  }

  /** Which goroutine moves next, and the environment's choice for it. */
  datatype Turn = Turn(goroutine: nat, choice: Choice)

  function Step(w: World, turn: Turn): World {
    if turn.goroutine < |w.goroutines| then
      var after := StepOne(w.shared, w.goroutines[turn.goroutine], turn.choice);
      World(after.0, w.goroutines[turn.goroutine := after.1])
    else w
  }

  function Run(w: World, schedule: seq<Turn>): World {
    if schedule == [] then w
    else Step(Run(w, schedule[..|schedule| - 1]), schedule[|schedule| - 1])
  }
}
