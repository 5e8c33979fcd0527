/**
 Reference counting of hosted providers: `HostedResource`/`ProviderContext` of the .NET
 binding (HostResources.cs) and `hostedContext` of the Go binding (provider_core.go).

 Both count owned retains in one integer and tear the provider down when the last is released.
 .NET has a wrapper whose `Dispose` gives back its own retain; Go starts with the retain of
 the raw resource.  Foreign code may retain and release through the ABI as long as it owns a
 retain itself.  The ABI retain has no error channel: .NET catches the exception of a failed
 retain, and `goVtRetain` recovers the panic, so the caller carries on as an owner.  A .NET
 function that hands out one more retain with a status (a snapshot, a fold of nothing) reports the
 failure; in Go such a snapshot goes through the ABI retain.  Threads interleave at every atomic
 read, compare-exchange, exchange and decrement.
 */
module HostedResource {
  import opened Interop

  datatype Binding = DotNet | Go

  function Limit(b: Binding): int {
    if b.Go? then MAX_INT64 else MAX_INT32
  }

  /**
   Who retains: `WithResource`, a callback it runs, or foreign code owning a retain; and foreign
   code in either place that asks for a snapshot.
   */
  datatype Purpose = Wrapper | Callback | Foreign | CallbackSnapshot | ForeignSnapshot

  /** The ABI retain, whose caller does not learn of a failure. */
  predicate Silent(p: Purpose) {
    p.Callback? || p.Foreign?
  }

  datatype Pc =
    | Idle
    | ReadContext                               // Volatile.Read(ref context)
    | RetainRead(purpose: Purpose)
    | RetainSwap(purpose: Purpose, observed: int)
    | InCallback
    | ExchangeContext                           // Interlocked.Exchange(ref context, null)
    | Decrement
    | DisposeNative
    | FreeHandle

  /**
   `pool` counts the retains foreign code believes it owns and is not using right now.
   `swallowed` counts the ABI retains that failed without the caller being told, because the
   C retain contract has no error channel.  `violated` records a use of the freed handle, or a
   teardown while somebody believes to own a retain.
   */
  datatype Host = Host(binding: Binding, retains: int, wrapper: bool, pool: nat,
                       disposals: nat, frees: nat, swallowed: nat, violated: bool)

  datatype World = World(host: Host, pcs: seq<Pc>)

  datatype Choice = WithResource | Dispose | ForeignRetain | AskSnapshot | ForeignRelease | Return

  function Retaining(h: Host, choice: Choice, inCallback: bool): Purpose {
    if choice.AskSnapshot? && h.binding.DotNet? then (if inCallback then CallbackSnapshot else ForeignSnapshot)
    else if inCallback then Callback
    else Foreign
  }

  function Init(b: Binding, n: nat): World {
    World(Host(b, 1, b.DotNet?, if b.Go? then 1 else 0, 0, 0, 0, false), seq(n, i => Idle))
  }

  // ---------------------------------------------------------------- steps

  /** A foreign call resolves the handle first. */
  function ResolveHandle(h: Host): Host {
    h.(violated := h.violated || h.frees > 0)
  }

  function StepIdle(h: Host, choice: Choice): (Host, Pc) {
    match choice
    case WithResource => (h, if h.binding.DotNet? then ReadContext else Idle)
    case Dispose => (h, if h.binding.DotNet? then ExchangeContext else Idle)
    case ForeignRelease =>
      if h.pool == 0 then (h, Idle)
      else (ResolveHandle(h.(pool := h.pool - 1)), Decrement)
    case Return => (h, Idle)
    case _ =>
      if h.pool == 0 then (h, Idle)
      else (ResolveHandle(h.(pool := h.pool - 1)), RetainRead(Retaining(h, choice, false)))
  }

  /** After an attempt to retain; the caller of the ABI retain carries on as if it had succeeded. */
  function Retained(h: Host, purpose: Purpose): (Host, Pc) {
    match purpose
    case Wrapper => (h, InCallback)
    case Callback => (h.(pool := h.pool + 1), InCallback)
    case CallbackSnapshot => (h.(pool := h.pool + 1), InCallback)
    case Foreign => (h.(pool := h.pool + 2), Idle)
    case ForeignSnapshot => (h.(pool := h.pool + 2), Idle)
  }

  /** The caller of the wrapper and who asks for a snapshot see the failure. */
  function RetainFailed(h: Host, purpose: Purpose): (Host, Pc) {
    match purpose
    case Wrapper => (h, Idle)
    case CallbackSnapshot => (h, InCallback)
    case ForeignSnapshot => (h.(pool := h.pool + 1), Idle)
    case _ => Retained(h.(swallowed := h.swallowed + 1), purpose)
  }

  function StepRetainSwap(h: Host, purpose: Purpose, observed: int): (Host, Pc) {
    if observed == 0 || observed == Limit(h.binding) then RetainFailed(h, purpose)
    else if h.retains == observed then Retained(h.(retains := observed + 1), purpose)
    else (h, if h.binding.Go? then RetainRead(purpose) else RetainSwap(purpose, h.retains))
  }

  function StepDecrement(h: Host): (Host, Pc) {
    var h := h.(retains := h.retains - 1);
    if h.retains < 0 then (h.(violated := true), Idle)
    else if h.retains > 0 then (h, Idle)
    else (h, if h.binding.DotNet? then DisposeNative else FreeHandle)
  }

  function StepOne(h: Host, pc: Pc, choice: Choice): (Host, Pc) {
    match pc
    case Idle => StepIdle(h, choice)
    case ReadContext => (h, if h.wrapper then RetainRead(Wrapper) else Idle)
    case RetainRead(p) => (h, RetainSwap(p, h.retains))
    case RetainSwap(p, observed) => StepRetainSwap(h, p, observed)
    case InCallback =>
      if choice.ForeignRetain? || choice.AskSnapshot? then
        (ResolveHandle(h), RetainRead(Retaining(h, choice, true)))
      else if choice.Return? then (h, Decrement)
      else (h, InCallback)
    case ExchangeContext => if h.wrapper then (h.(wrapper := false), Decrement) else (h, Idle)
    case Decrement => StepDecrement(h)
    case DisposeNative => (h.(disposals := h.disposals + 1), FreeHandle)
    case FreeHandle => (h.(frees := h.frees + 1), Idle)
  }

  /** The retains a thread believes to own while it is at `pc`. */
  function Owned(pc: Pc): nat {
    match pc
    case RetainRead(p) => if p.Wrapper? then 0 else 1
    case RetainSwap(p, _) => if p.Wrapper? then 0 else 1
    case InCallback => 1
    case Decrement => 1
    case _ => 0
  }

  function TotalOwned(pcs: seq<Pc>): nat {
    if pcs == [] then 0 else Owned(pcs[0]) + TotalOwned(pcs[1..])
  }

  /** Nobody may own a retain while the provider is torn down. */
  function Audit(w: World): World {
    if (exists i :: 0 <= i < |w.pcs| && (w.pcs[i].DisposeNative? || w.pcs[i].FreeHandle?))
       && (w.host.wrapper || w.host.pool > 0 || TotalOwned(w.pcs) > 0)
    then w.(host := w.host.(violated := true)) else w
  }

  datatype Turn = Turn(thread: nat, choice: Choice)

  function Step(w: World, turn: Turn): World {
    if turn.thread >= |w.pcs| then w
    else
      var after := StepOne(w.host, w.pcs[turn.thread], turn.choice);
      Audit(World(after.0, w.pcs[turn.thread := after.1]))
  }

  function Run(w: World, schedule: seq<Turn>): World {
    if schedule == [] then w
    else Step(Run(w, schedule[..|schedule| - 1]), schedule[|schedule| - 1])
  }

  // ---------------------------------------------------------------- invariant

  predicate Tearing(pc: Pc) {
    pc.DisposeNative? || pc.FreeHandle?
  }

  ghost function TotalTearing(pcs: seq<Pc>): nat {
    if pcs == [] then 0 else (if Tearing(pcs[0]) then 1 else 0) + TotalTearing(pcs[1..])
  }

  lemma {:induction false} Replace(pcs: seq<Pc>, i: nat, pc: Pc)
    requires i < |pcs|
    ensures TotalOwned(pcs[i := pc]) + Owned(pcs[i]) == TotalOwned(pcs) + Owned(pc)
    ensures TotalTearing(pcs[i := pc]) + (if Tearing(pcs[i]) then 1 else 0)
            == TotalTearing(pcs) + (if Tearing(pc) then 1 else 0)
    ensures Owned(pcs[i]) <= TotalOwned(pcs) && (Tearing(pcs[i]) ==> TotalTearing(pcs) > 0)
  {
    if i == 0 {
      assert pcs[0 := pc][1..] == pcs[1..];
    } else {
      Replace(pcs[1..], i - 1, pc);
      assert pcs[i := pc][1..] == pcs[1..][i - 1 := pc];
    }
  }

  function Owners(h: Host, owned: nat): nat {
    (if h.wrapper then 1 else 0) + h.pool + owned
  }

  /**
   The count lags behind the retains somebody believes to own by exactly the swallowed ones,
   and a count of zero means exactly one teardown, in progress or done.
   */
  ghost predicate Counted(h: Host, owned: nat, tearing: nat) {
    && !h.violated
    && h.retains + h.swallowed == Owners(h, owned)
    && 0 <= h.retains <= Limit(h.binding)
    && tearing + h.frees == (if h.retains == 0 then 1 else 0)
    && (h.binding.Go? ==> !h.wrapper && h.disposals == 0)
  }

  /** A teardown after a swallowed retain is one under an owner, which the audit reports. */
  ghost predicate Balanced(h: Host, owned: nat, tearing: nat) {
    Counted(h, owned, tearing) && (h.retains == 0 ==> h.swallowed == 0)
  }

  /** The native teardown of the .NET provider precedes the release of its handle. */
  ghost predicate PcOk(h: Host, pc: Pc) {
    && (h.binding.DotNet? && h.disposals == 0 ==> pc != FreeHandle)
    && (h.binding.Go? || h.disposals > 0 ==> pc != DisposeNative)
    && (pc.RetainSwap? ==> 0 <= pc.observed <= Limit(h.binding))
    && (pc.RetainSwap? && !pc.purpose.Wrapper? ==> pc.observed > 0)
    && (h.binding.Go? && (pc.RetainRead? || pc.RetainSwap?) ==> !pc.purpose.Wrapper?)
    && (h.binding.Go? ==> pc != ReadContext && pc != ExchangeContext)
  }

  ghost predicate HostOk(h: Host) {
    h.disposals <= 1
    && (h.binding.DotNet? ==> h.frees <= h.disposals)
    && (h.disposals > 0 ==> h.retains == 0)
  }

  ghost predicate Inv(w: World) {
    && HostOk(w.host)
    && Balanced(w.host, TotalOwned(w.pcs), TotalTearing(w.pcs))
    && (forall i :: 0 <= i < |w.pcs| ==> PcOk(w.host, w.pcs[i]))
  }

  lemma {:induction false} TearingCounts(pcs: seq<Pc>, i: nat)
    requires i < |pcs| && Tearing(pcs[i])
    ensures TotalTearing(pcs) > 0
  {
    if i > 0 {
      TearingCounts(pcs[1..], i - 1);
    }
  }

  lemma {:induction false} TearingExists(pcs: seq<Pc>) returns (i: nat)
    requires TotalTearing(pcs) > 0
    ensures i < |pcs| && Tearing(pcs[i])
  {
    if Tearing(pcs[0]) {
      i := 0;
    } else {
      i := TearingExists(pcs[1..]);
      i := i + 1;
    }
  }

  /** A balanced host is never torn down under an owner, so the audit finds nothing. */
  lemma AuditPasses(w: World)
    requires Balanced(w.host, TotalOwned(w.pcs), TotalTearing(w.pcs))
    ensures Audit(w) == w
  {
    forall i | 0 <= i < |w.pcs| && Tearing(w.pcs[i]) ensures w.host.retains == 0 {
      TearingCounts(w.pcs, i);
    }
  }

  /** And a count of zero that is not balanced is a teardown under an owner. */
  lemma AuditReports(w: World)
    requires Counted(w.host, TotalOwned(w.pcs), TotalTearing(w.pcs))
    requires w.host.retains == 0 && w.host.swallowed > 0 && w.host.frees == 0
    ensures Audit(w).host.violated
  {
    var i := TearingExists(w.pcs);
  }

  /** How a step of a thread at `pc` changes the tallies of owned retains and of teardowns. */
  ghost predicate CountedAfter(h: Host, pc: Pc, after: (Host, Pc), owned: nat, tearing: nat) {
    Owned(pc) <= owned && (Tearing(pc) ==> tearing > 0) &&
    Counted(after.0, owned - Owned(pc) + Owned(after.1),
            tearing - (if Tearing(pc) then 1 else 0) + (if Tearing(after.1) then 1 else 0))
  }

  /** A retain that succeeds is counted, one that is swallowed is remembered. */
  lemma RetainedCounted(h: Host, purpose: Purpose, observed: int, after: Host, owned: nat, tearing: nat)
    requires Counted(h, owned, tearing) && h.retains > 0 && (h.binding.Go? ==> !purpose.Wrapper?)
    requires Owned(RetainSwap(purpose, observed)) <= owned
    requires || (after == h.(retains := h.retains + 1) && h.retains < Limit(h.binding))
             || (after == h.(swallowed := h.swallowed + 1) && Silent(purpose))
    ensures CountedAfter(h, RetainSwap(purpose, observed), Retained(after, purpose), owned, tearing)
  {
  }

  /** A failure that is reported leaves the tallies as they were before the attempt. */
  lemma FailureCounted(h: Host, purpose: Purpose, observed: int, owned: nat, tearing: nat)
    requires Counted(h, owned, tearing) && !Silent(purpose) && Owned(RetainSwap(purpose, observed)) <= owned
    ensures CountedAfter(h, RetainSwap(purpose, observed), RetainFailed(h, purpose), owned, tearing)
  {
  }

  lemma RetryCounted(h: Host, purpose: Purpose, observed: int, next: Pc, owned: nat, tearing: nat)
    requires Counted(h, owned, tearing) && Owned(RetainSwap(purpose, observed)) <= owned
    requires next == RetainRead(purpose) || next == RetainSwap(purpose, h.retains)
    ensures CountedAfter(h, RetainSwap(purpose, observed), (h, next), owned, tearing)
  {
  }

  lemma RetainSwapCounted(h: Host, pc: Pc, choice: Choice, owned: nat, tearing: nat)
    requires HostOk(h) && Balanced(h, owned, tearing) && PcOk(h, pc) && pc.RetainSwap? && Owned(pc) <= owned
    ensures CountedAfter(h, pc, StepOne(h, pc, choice), owned, tearing)
  {
    var p, after := pc.purpose, StepRetainSwap(h, pc.purpose, pc.observed);
    assert StepOne(h, pc, choice) == after && pc == RetainSwap(p, pc.observed);
    if pc.observed == 0 || pc.observed == Limit(h.binding) {
      if Silent(p) {
        RetainedCounted(h, p, pc.observed, h.(swallowed := h.swallowed + 1), owned, tearing);
      } else {
        FailureCounted(h, p, pc.observed, owned, tearing);
      }
    } else if h.retains == pc.observed {
      RetainedCounted(h, p, pc.observed, h.(retains := h.retains + 1), owned, tearing);
    } else {
      RetryCounted(h, p, pc.observed, after.1, owned, tearing);
    }
  }

  lemma IdleCounted(h: Host, pc: Pc, choice: Choice, owned: nat, tearing: nat)
    requires HostOk(h) && Balanced(h, owned, tearing) && PcOk(h, pc)
    requires (pc.Idle? || pc.InCallback?) && Owned(pc) <= owned
    ensures CountedAfter(h, pc, StepOne(h, pc, choice), owned, tearing)
  {
  }

  lemma ReleaseCounted(h: Host, pc: Pc, choice: Choice, owned: nat, tearing: nat)
    requires HostOk(h) && Balanced(h, owned, tearing) && PcOk(h, pc)
    requires pc.ExchangeContext? || pc.Decrement? || Tearing(pc)
    requires Owned(pc) <= owned && (Tearing(pc) ==> tearing > 0)
    ensures CountedAfter(h, pc, StepOne(h, pc, choice), owned, tearing)
  {
  }

  lemma StepOneCounted(h: Host, pc: Pc, choice: Choice, owned: nat, tearing: nat)
    requires HostOk(h) && Balanced(h, owned, tearing) && PcOk(h, pc)
    requires Owned(pc) <= owned && (Tearing(pc) ==> tearing > 0)
    ensures CountedAfter(h, pc, StepOne(h, pc, choice), owned, tearing)
  {
    match pc
    case RetainSwap(_, _) => RetainSwapCounted(h, pc, choice, owned, tearing);
    case Idle => IdleCounted(h, pc, choice, owned, tearing);
    case InCallback => IdleCounted(h, pc, choice, owned, tearing);
    case ReadContext =>
    case RetainRead(_) =>
    case _ => ReleaseCounted(h, pc, choice, owned, tearing);
  }

  lemma StepOneOk(h: Host, pc: Pc, choice: Choice, owned: nat, tearing: nat)
    requires HostOk(h) && Balanced(h, owned, tearing) && PcOk(h, pc)
    requires Owned(pc) <= owned && (Tearing(pc) ==> tearing > 0)
    ensures var after := StepOne(h, pc, choice);
            && HostOk(after.0) && PcOk(after.0, after.1)
            && (after.0.retains == 0 && after.0.swallowed > 0 ==> after.0.frees == 0)
  {
  }

  lemma StepDisposals(h: Host, pc: Pc, choice: Choice)
    ensures var h' := StepOne(h, pc, choice).0;
            h'.binding == h.binding && h'.disposals == if pc.DisposeNative? then h.disposals + 1 else h.disposals
  {
  }

  lemma PcOkByDisposals(h: Host, h': Host, pc: Pc)
    requires PcOk(h, pc) && h'.binding == h.binding
    requires h'.disposals == h.disposals || (h'.disposals > 0 && !Tearing(pc))
    ensures PcOk(h', pc)
  {
  }

  /** At most one thread tears down. */
  lemma OneTearing(pcs: seq<Pc>, i: nat, j: nat)
    requires i < |pcs| && j < |pcs| && i != j && Tearing(pcs[i]) && Tearing(pcs[j])
    ensures TotalTearing(pcs) > 1
  {
    Replace(pcs, i, Idle);
    assert pcs[i := Idle][j] == pcs[j];
    TearingCounts(pcs[i := Idle], j);
  }

  /** The other threads' facts survive the step of one thread. */
  lemma OtherPcOk(h: Host, pcs: seq<Pc>, i: nat, j: nat, choice: Choice)
    requires i < |pcs| && j < |pcs| && i != j && TotalTearing(pcs) <= 1
    requires PcOk(h, pcs[j])
    ensures PcOk(StepOne(h, pcs[i], choice).0, pcs[j])
  {
    StepDisposals(h, pcs[i], choice);
    if pcs[i].DisposeNative? && Tearing(pcs[j]) {
      OneTearing(pcs, i, j);
    }
    PcOkByDisposals(h, StepOne(h, pcs[i], choice).0, pcs[j]);
  }

  /** The step of a thread without the audit. */
  function Moved(w: World, i: nat, choice: Choice): World
    requires i < |w.pcs|
  {
    var after := StepOne(w.host, w.pcs[i], choice);
    World(after.0, w.pcs[i := after.1])
  }

  lemma MovedCounted(w: World, i: nat, choice: Choice)
    requires Inv(w) && i < |w.pcs|
    ensures var w' := Moved(w, i, choice);
            && HostOk(w'.host) && Counted(w'.host, TotalOwned(w'.pcs), TotalTearing(w'.pcs))
            && (w'.host.retains == 0 && w'.host.swallowed > 0 ==> w'.host.frees == 0)
  {
    Replace(w.pcs, i, StepOne(w.host, w.pcs[i], choice).1);
    StepOneCounted(w.host, w.pcs[i], choice, TotalOwned(w.pcs), TotalTearing(w.pcs));
    StepOneOk(w.host, w.pcs[i], choice, TotalOwned(w.pcs), TotalTearing(w.pcs));
  }

  lemma MovedPcsOk(w: World, i: nat, choice: Choice)
    requires Inv(w) && i < |w.pcs|
    ensures var w' := Moved(w, i, choice); forall j :: 0 <= j < |w'.pcs| ==> PcOk(w'.host, w'.pcs[j])
  {
    var w' := Moved(w, i, choice);
    Replace(w.pcs, i, Idle);
    forall j | 0 <= j < |w'.pcs| ensures PcOk(w'.host, w'.pcs[j]) {
      if j != i {
        OtherPcOk(w.host, w.pcs, i, j, choice);
      } else {
        StepOneOk(w.host, w.pcs[i], choice, TotalOwned(w.pcs), TotalTearing(w.pcs));
      }
    }
  }

  /** A step keeps the invariant, or the audit has found a violation. */
  lemma StepKeepsInv(w: World, turn: Turn)
    requires Inv(w)
    ensures Step(w, turn).host.violated || Inv(Step(w, turn))
    ensures !Step(w, turn).host.violated && turn.thread < |w.pcs| ==>
              Step(w, turn) == Moved(w, turn.thread, turn.choice)
  {
    if turn.thread < |w.pcs| {
      var w' := Moved(w, turn.thread, turn.choice);
      MovedCounted(w, turn.thread, turn.choice);
      if w'.host.retains == 0 && w'.host.swallowed > 0 {
        AuditReports(w');
      } else {
        MovedPcsOk(w, turn.thread, turn.choice);
        AuditPasses(w');
      }
    }
  }

  lemma {:induction false} IdleTotals(pcs: seq<Pc>)
    requires forall i :: 0 <= i < |pcs| ==> pcs[i] == Idle
    ensures TotalOwned(pcs) == 0 && TotalTearing(pcs) == 0
  {
    if pcs != [] {
      IdleTotals(pcs[1..]);
    }
  }

  lemma StepOneMonotone(h: Host, pc: Pc, choice: Choice)
    ensures var h' := StepOne(h, pc, choice).0;
            h'.binding == h.binding && h'.swallowed >= h.swallowed && (h.violated ==> h'.violated)
  {
  }

  lemma StepMonotone(w: World, turn: Turn)
    ensures var w' := Step(w, turn);
            && w'.host.binding == w.host.binding && w'.host.swallowed >= w.host.swallowed
            && (w.host.violated ==> w'.host.violated) && |w'.pcs| == |w.pcs|
  {
    if turn.thread < |w.pcs| {
      StepOneMonotone(w.host, w.pcs[turn.thread], turn.choice);
    }
  }

  lemma {:induction false} RunKeepsInv(b: Binding, n: nat, schedule: seq<Turn>)
    ensures var w := Run(Init(b, n), schedule);
            && (w.host.violated || Inv(w)) && w.host.binding == b && |w.pcs| == n
  {
    if schedule == [] {
      IdleTotals(Init(b, n).pcs);
    } else {
      var w, turn := Run(Init(b, n), schedule[..|schedule| - 1]), schedule[|schedule| - 1];
      RunKeepsInv(b, n, schedule[..|schedule| - 1]);
      StepMonotone(w, turn);
      if !w.host.violated {
        StepKeepsInv(w, turn);
      }
    }
  }
}
