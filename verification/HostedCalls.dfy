/**
 What each call on a hosted provider does when its thread runs alone, from every state that can be
 reached without a violation: retains are granted below the limit and refused, reported or
 swallowed at it, and releases give back what they should.
 */
module HostedCalls {
  import opened Interop
  import opened HostedResource
  import opened HostedTeardown

  /** No teardown starts under an owner. */
  predicate Sane(h: Host) {
    h.retains > 0 || h.swallowed == 0
  }

  /** The run has led, without a violation, to host `h`, thread `i` at `pc`, and the others as in `pcs`. */
  ghost predicate Leads(b: Binding, n: nat, schedule: seq<Turn>, i: nat, pcs: seq<Pc>, h: Host, pc: Pc) {
    i < n == |pcs| && !h.violated && Run(Init(b, n), schedule) == World(h, pcs[i := pc])
  }

  /** One turn of thread `i`. */
  lemma Go(b: Binding, n: nat, schedule: seq<Turn>, i: nat, pcs: seq<Pc>, h: Host, pc: Pc, choice: Choice)
    requires Leads(b, n, schedule, i, pcs, h, pc) && Sane(StepOne(h, pc, choice).0)
    ensures Leads(b, n, schedule + [Turn(i, choice)], i, pcs, StepOne(h, pc, choice).0, StepOne(h, pc, choice).1)
  {
    var w, more := Run(Init(b, n), schedule), schedule + [Turn(i, choice)];
    assert more[..|more| - 1] == schedule;
    RunKeepsInv(b, n, schedule);
    MovedCounted(w, i, choice);
    AuditPasses(Moved(w, i, choice));
    assert pcs[i := pc][i := StepOne(h, pc, choice).1] == pcs[i := StepOne(h, pc, choice).1];
  }

  /** What is known of the host in a reachable state. */
  lemma HostFacts(b: Binding, n: nat, schedule: seq<Turn>, i: nat, pcs: seq<Pc>, h: Host, pc: Pc)
    requires Leads(b, n, schedule, i, pcs, h, pc)
    ensures h.binding == b && Sane(h) && 0 <= h.retains <= Limit(b)
    ensures h.wrapper || h.pool > 0 || pc.InCallback? ==> h.retains > 0 && h.frees == 0
  {
    RunKeepsInv(b, n, schedule);
    Replace(pcs[i := pc], i, Idle);
  }

  // ---------------------------------------------------------------- retaining

  /** A retain that read the count and was not interfered with. */
  function Attempted(h: Host, purpose: Purpose): (Host, Pc) {
    if h.retains == Limit(h.binding) then RetainFailed(h, purpose)
    else Retained(h.(retains := h.retains + 1), purpose)
  }

  lemma GoRetain(b: Binding, n: nat, schedule: seq<Turn>, i: nat, pcs: seq<Pc>, h: Host, purpose: Purpose)
    requires Leads(b, n, schedule, i, pcs, h, RetainRead(purpose)) && h.retains > 0
    ensures var after := Attempted(h, purpose);
            Leads(b, n, schedule + [Turn(i, Return)] + [Turn(i, Return)], i, pcs, after.0, after.1)
  {
    Go(b, n, schedule, i, pcs, h, RetainRead(purpose), Return);
    assert StepOne(h, RetainSwap(purpose, h.retains), Return) == Attempted(h, purpose);
    Go(b, n, schedule + [Turn(i, Return)], i, pcs, h, RetainSwap(purpose, h.retains), Return);
  }

  /**
   `WithResource` runs the callback, under a retain of its own, if the wrapper was not disposed and
   fewer than 2^31 - 1 retains are out; at that limit it throws, and nothing changes.
   */
  lemma CallbackRuns(n: nat, schedule: seq<Turn>, i: nat, pcs: seq<Pc>, h: Host)
    requires Leads(DotNet, n, schedule, i, pcs, h, Idle) && h.wrapper
    ensures var turns := [Turn(i, WithResource)] + [Turn(i, Return)];
            var more := schedule + turns + [Turn(i, Return)] + [Turn(i, Return)];
            if h.retains < 0x7fff_ffff then Leads(DotNet, n, more, i, pcs, h.(retains := h.retains + 1), InCallback)
            else Leads(DotNet, n, more, i, pcs, h, Idle)
  {
    HostFacts(DotNet, n, schedule, i, pcs, h, Idle);
    Go(DotNet, n, schedule, i, pcs, h, Idle, WithResource);
    Go(DotNet, n, schedule + [Turn(i, WithResource)], i, pcs, h, ReadContext, Return);
    assert schedule + [Turn(i, WithResource)] + [Turn(i, Return)]
        == schedule + ([Turn(i, WithResource)] + [Turn(i, Return)]);
    GoRetain(DotNet, n, schedule + ([Turn(i, WithResource)] + [Turn(i, Return)]), i, pcs, h, Wrapper);
  }

  /** Once the wrapper was disposed, it throws, and nothing changes. */
  lemma CallbackRefused(n: nat, schedule: seq<Turn>, i: nat, pcs: seq<Pc>, h: Host)
    requires Leads(DotNet, n, schedule, i, pcs, h, Idle) && !h.wrapper
    ensures Leads(DotNet, n, schedule + [Turn(i, WithResource)] + [Turn(i, Return)], i, pcs, h, Idle)
  {
    HostFacts(DotNet, n, schedule, i, pcs, h, Idle);
    Go(DotNet, n, schedule, i, pcs, h, Idle, WithResource);
    Go(DotNet, n, schedule + [Turn(i, WithResource)], i, pcs, h, ReadContext, Return);
  }

  /** What foreign code that owns a retain should get. */
  function OneMoreRetain(b: Binding, h: Host, snapshot: bool): Host {
    if h.retains < (if b == DotNet then 0x7fff_ffff else 0x7fff_ffff_ffff_ffff)
    then h.(retains := h.retains + 1, pool := h.pool + 1)
    else if snapshot && b == DotNet then h
    else h.(swallowed := h.swallowed + 1, pool := h.pool + 1)
  }

  lemma AttemptOutside(b: Binding, h: Host, snapshot: bool)
    requires h.binding == b && h.pool > 0 && h.retains <= Limit(b)
    ensures Attempted(h.(pool := h.pool - 1), Retaining(h, if snapshot then AskSnapshot else ForeignRetain, false))
            == (OneMoreRetain(b, h, snapshot), Idle)
  {
  }

  lemma AttemptInside(b: Binding, h: Host, snapshot: bool)
    requires h.binding == b && h.retains <= Limit(b)
    ensures Attempted(h, Retaining(h, if snapshot then AskSnapshot else ForeignRetain, true))
            == (OneMoreRetain(b, h, snapshot), InCallback)
  {
  }

  /**
   Foreign code that owns a retain gets another one below the limit, by the ABI retain or by a
   snapshot.  At the limit a .NET snapshot fails without effect; everything else is swallowed.
   */
  lemma RetainGranted(b: Binding, n: nat, schedule: seq<Turn>, i: nat, pcs: seq<Pc>, h: Host, snapshot: bool)
    requires Leads(b, n, schedule, i, pcs, h, Idle) && h.pool > 0
    ensures var after := OneMoreRetain(b, h, snapshot);
            var first := [Turn(i, if snapshot then AskSnapshot else ForeignRetain)];
            Leads(b, n, schedule + first + [Turn(i, Return)] + [Turn(i, Return)], i, pcs, after, Idle)
  {
    var choice := if snapshot then AskSnapshot else ForeignRetain;
    HostFacts(b, n, schedule, i, pcs, h, Idle);
    Go(b, n, schedule, i, pcs, h, Idle, choice);
    var h1, purpose := h.(pool := h.pool - 1), Retaining(h, choice, false);
    assert StepOne(h, Idle, choice) == (h1, RetainRead(purpose));
    GoRetain(b, n, schedule + [Turn(i, choice)], i, pcs, h1, purpose);
    AttemptOutside(b, h, snapshot);
  }

  /** So does a callback, which owns the retain it runs under. */
  lemma RetainInside(b: Binding, n: nat, schedule: seq<Turn>, i: nat, pcs: seq<Pc>, h: Host, snapshot: bool)
    requires Leads(b, n, schedule, i, pcs, h, InCallback)
    ensures var after := OneMoreRetain(b, h, snapshot);
            var first := [Turn(i, if snapshot then AskSnapshot else ForeignRetain)];
            Leads(b, n, schedule + first + [Turn(i, Return)] + [Turn(i, Return)], i, pcs, after, InCallback)
  {
    var choice := if snapshot then AskSnapshot else ForeignRetain;
    HostFacts(b, n, schedule, i, pcs, h, InCallback);
    var purpose := Retaining(h, choice, true);
    assert StepOne(h, InCallback, choice) == (h, RetainRead(purpose));
    Go(b, n, schedule, i, pcs, h, InCallback, choice);
    GoRetain(b, n, schedule + [Turn(i, choice)], i, pcs, h, purpose);
    AttemptInside(b, h, snapshot);
  }

  /** Under interference no attempt to retain is given up: a lost compare-and-swap is tried again. */
  lemma RetainRetried(h: Host, purpose: Purpose, observed: int, choice: Choice)
    requires 0 < observed < (if h.binding == DotNet then 0x7fff_ffff else 0x7fff_ffff_ffff_ffff)
    requires h.retains != observed
    ensures var after := StepOne(h, RetainSwap(purpose, observed), choice);
            after.0 == h && after.1 in {RetainRead(purpose), RetainSwap(purpose, h.retains)}
  {
  }

  // ---------------------------------------------------------------- giving back

  /** Where the thread goes that gave back a retain of `h`. */
  function GaveBack(h: Host): Pc {
    if h.retains > 1 then Idle else if h.binding == DotNet then DisposeNative else FreeHandle
  }

  /** The last retain of a host that swallowed one: giving it back is what `HostedTeardown` is about. */
  predicate Undercounted(h: Host) {
    h.retains == 1 && h.swallowed > 0
  }

  lemma GoDecrement(b: Binding, n: nat, schedule: seq<Turn>, i: nat, pcs: seq<Pc>, h: Host)
    requires Leads(b, n, schedule, i, pcs, h, Decrement) && h.retains > 0 && !Undercounted(h)
    ensures Leads(b, n, schedule + [Turn(i, Return)], i, pcs, h.(retains := h.retains - 1), GaveBack(h))
  {
    HostFacts(b, n, schedule, i, pcs, h, Decrement);
    assert StepOne(h, Decrement, Return) == (h.(retains := h.retains - 1), GaveBack(h));
    Go(b, n, schedule, i, pcs, h, Decrement, Return);
  }

  /** A release gives back one retain, and the one that gives back the last goes on to the teardown. */
  lemma ReleaseGivesBack(b: Binding, n: nat, schedule: seq<Turn>, i: nat, pcs: seq<Pc>, h: Host)
    requires Leads(b, n, schedule, i, pcs, h, Idle) && h.pool > 0 && !Undercounted(h)
    ensures Leads(b, n, schedule + [Turn(i, ForeignRelease)] + [Turn(i, Return)], i, pcs,
                  h.(retains := h.retains - 1, pool := h.pool - 1), GaveBack(h))
  {
    HostFacts(b, n, schedule, i, pcs, h, Idle);
    var h1 := h.(pool := h.pool - 1);
    assert StepOne(h, Idle, ForeignRelease) == (h1, Decrement);
    Go(b, n, schedule, i, pcs, h, Idle, ForeignRelease);
    GoDecrement(b, n, schedule + [Turn(i, ForeignRelease)], i, pcs, h1);
  }

  /** So does `Dispose`, once. */
  lemma DisposeGivesBack(n: nat, schedule: seq<Turn>, i: nat, pcs: seq<Pc>, h: Host)
    requires Leads(DotNet, n, schedule, i, pcs, h, Idle) && !Undercounted(h)
    ensures h.wrapper ==>
              Leads(DotNet, n, schedule + [Turn(i, Dispose)] + [Turn(i, Return)] + [Turn(i, Return)], i, pcs,
                    h.(retains := h.retains - 1, wrapper := false), GaveBack(h))
    ensures !h.wrapper ==> Leads(DotNet, n, schedule + [Turn(i, Dispose)] + [Turn(i, Return)], i, pcs, h, Idle)
  {
    HostFacts(DotNet, n, schedule, i, pcs, h, Idle);
    Go(DotNet, n, schedule, i, pcs, h, Idle, Dispose);
    Go(DotNet, n, schedule + [Turn(i, Dispose)], i, pcs, h, ExchangeContext, Return);
    if h.wrapper {
      GoDecrement(DotNet, n, schedule + [Turn(i, Dispose)] + [Turn(i, Return)], i, pcs, h.(wrapper := false));
    }
  }

  /** And so does a callback that returns. */
  lemma CallbackGivesBack(b: Binding, n: nat, schedule: seq<Turn>, i: nat, pcs: seq<Pc>, h: Host)
    requires Leads(b, n, schedule, i, pcs, h, InCallback) && !Undercounted(h)
    ensures Leads(b, n, schedule + [Turn(i, Return)] + [Turn(i, Return)], i, pcs,
                  h.(retains := h.retains - 1), GaveBack(h))
  {
    HostFacts(b, n, schedule, i, pcs, h, InCallback);
    Go(b, n, schedule, i, pcs, h, InCallback, Return);
    GoDecrement(b, n, schedule + [Turn(i, Return)], i, pcs, h);
  }
}
