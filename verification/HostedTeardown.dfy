/**
 When hosted providers are torn down: what `HostedResource` guarantees as long as no ABI retain
 is swallowed, exactly when one is, and that a swallowed one can always be driven to a teardown
 under an owner.
 */
module HostedTeardown {
  import opened HostedResource

  ghost predicate AllIdle(w: World) {
    forall i :: 0 <= i < |w.pcs| ==> w.pcs[i] == Idle
  }

  /** In every state the run passes through, the count is below its limit. */
  ghost predicate StaysBelowLimit(b: Binding, n: nat, schedule: seq<Turn>) {
    forall k :: 0 <= k <= |schedule| ==> Run(Init(b, n), schedule[..k]).host.retains < Limit(b)
  }

  // ---------------------------------------------------------------- nothing swallowed

  /** Without a swallowed retain no violation was found. */
  lemma {:induction false} UnswallowedNotViolated(b: Binding, n: nat, schedule: seq<Turn>)
    requires Run(Init(b, n), schedule).host.swallowed == 0
    ensures !Run(Init(b, n), schedule).host.violated
  {
    if schedule != [] {
      var w, turn := Run(Init(b, n), schedule[..|schedule| - 1]), schedule[|schedule| - 1];
      StepMonotone(w, turn);
      UnswallowedNotViolated(b, n, schedule[..|schedule| - 1]);
      RunKeepsInv(b, n, schedule[..|schedule| - 1]);
      UnswallowedStep(w, turn);
    }
  }

  lemma UnswallowedStep(w: World, turn: Turn)
    requires Inv(w) && Step(w, turn).host.swallowed == 0
    ensures !Step(w, turn).host.violated
  {
    if turn.thread < |w.pcs| {
      MovedCounted(w, turn.thread, turn.choice);
      AuditKeepsSwallowed(Moved(w, turn.thread, turn.choice));
      AuditPasses(Moved(w, turn.thread, turn.choice));
    }
  }

  lemma AuditKeepsSwallowed(w: World)
    ensures Audit(w).host.swallowed == w.host.swallowed
  {
  }

  /**
   As long as no ABI retain was swallowed, the provider is torn down at most once, never while
   the wrapper, a callback or foreign code owns a retain, the handle is never used after it was
   freed, and .NET frees it only after `DisposeNative`.
   */
  lemma UnswallowedIsSafe(b: Binding, n: nat, schedule: seq<Turn>)
    requires Run(Init(b, n), schedule).host.swallowed == 0
    ensures var w := Run(Init(b, n), schedule);
            && !w.host.violated
            && w.host.retains == Owners(w.host, TotalOwned(w.pcs))
            && w.host.frees <= 1 && w.host.disposals <= 1
            && (b.DotNet? ==> w.host.frees <= w.host.disposals)
            && (w.host.disposals + w.host.frees > 0 ==> w.host.retains == 0)
  {
    UnswallowedNotViolated(b, n, schedule);
    RunKeepsInv(b, n, schedule);
  }

  /** A thread that saw a full count, and is about to fail its ABI retain. */
  ghost predicate SawFull(b: Binding, pc: Pc) {
    pc.RetainSwap? && Silent(pc.purpose) && pc.observed == Limit(b)
  }

  lemma SwallowsIff(h: Host, pc: Pc, choice: Choice)
    requires PcOk(h, pc)
    ensures StepOne(h, pc, choice).0.swallowed > h.swallowed <==> SawFull(h.binding, pc)
  {
  }

  /** A retain is swallowed exactly when an ABI retain acts on a count it saw at the limit. */
  lemma SwallowedExactlyAtLimit(b: Binding, n: nat, schedule: seq<Turn>, turn: Turn)
    requires !Run(Init(b, n), schedule).host.violated
    ensures var w := Run(Init(b, n), schedule);
            Step(w, turn).host.swallowed > w.host.swallowed
            <==> turn.thread < |w.pcs| && SawFull(b, w.pcs[turn.thread])
  {
    RunKeepsInv(b, n, schedule);
    var w := Run(Init(b, n), schedule);
    if turn.thread < |w.pcs| {
      assert PcOk(w.host, w.pcs[turn.thread]);
      SwallowsIff(w.host, w.pcs[turn.thread], turn.choice);
      AuditKeepsSwallowed(Moved(w, turn.thread, turn.choice));
    }
  }

  ghost predicate NobodySawFull(w: World) {
    forall i :: 0 <= i < |w.pcs| ==> !SawFull(w.host.binding, w.pcs[i])
  }

  lemma SeesFullOnlyIfFull(h: Host, pc: Pc, choice: Choice)
    requires h.retains != Limit(h.binding) && !SawFull(h.binding, pc)
    ensures !SawFull(h.binding, StepOne(h, pc, choice).1)
  {
  }

  lemma {:induction false} BelowLimitSeesNoLimit(b: Binding, n: nat, schedule: seq<Turn>)
    requires StaysBelowLimit(b, n, schedule)
    ensures var w := Run(Init(b, n), schedule); w.host.swallowed == 0 && !w.host.violated && NobodySawFull(w)
  {
    if schedule != [] {
      var before, turn := schedule[..|schedule| - 1], schedule[|schedule| - 1];
      var w := Run(Init(b, n), before);
      forall k | 0 <= k <= |before| ensures Run(Init(b, n), before[..k]).host.retains < Limit(b) {
        assert before[..k] == schedule[..k];
      }
      assert before[..|before|] == before;
      BelowLimitSeesNoLimit(b, n, before);
      RunKeepsInv(b, n, before);
      SwallowedExactlyAtLimit(b, n, before, turn);
      StepMonotone(w, turn);
      UnswallowedStep(w, turn);
      if turn.thread < |w.pcs| {
        StepKeepsInv(w, turn);
        SeesFullOnlyIfFull(w.host, w.pcs[turn.thread], turn.choice);
      }
    }
  }

  /**
   Callers that keep the count below its limit are safe: no retain is swallowed, and everything
   `UnswallowedIsSafe` says holds, in .NET and in Go.
   */
  lemma TeardownIsSafe(b: Binding, n: nat, schedule: seq<Turn>)
    requires StaysBelowLimit(b, n, schedule)
    ensures var w := Run(Init(b, n), schedule);
            && w.host.swallowed == 0 && !w.host.violated
            && w.host.retains == Owners(w.host, TotalOwned(w.pcs))
            && w.host.frees <= 1 && w.host.disposals <= 1
            && (b.DotNet? ==> w.host.frees <= w.host.disposals)
            && (w.host.disposals + w.host.frees > 0 ==> w.host.retains == 0)
  {
    BelowLimitSeesNoLimit(b, n, schedule);
    UnswallowedIsSafe(b, n, schedule);
  }

  /** A callback that is running keeps the provider alive, until a violation is found. */
  lemma NoTeardownDuringCallback(b: Binding, n: nat, schedule: seq<Turn>, i: nat, j: nat)
    requires !Run(Init(b, n), schedule).host.violated
    requires i < |Run(Init(b, n), schedule).pcs| && Run(Init(b, n), schedule).pcs[i].InCallback?
    requires j < |Run(Init(b, n), schedule).pcs|
    ensures var w := Run(Init(b, n), schedule);
            w.host.disposals == 0 && w.host.frees == 0 && !Tearing(w.pcs[j])
  {
    RunKeepsInv(b, n, schedule);
    var w := Run(Init(b, n), schedule);
    Replace(w.pcs, i, Idle);
    Replace(w.pcs, j, Idle);
  }

  /**
   When every thread has finished without a violation, there was one complete teardown exactly
   if nobody owns a retain, swallowed retains or not.
   */
  lemma TornDownIffUnowned(b: Binding, n: nat, schedule: seq<Turn>)
    requires !Run(Init(b, n), schedule).host.violated && AllIdle(Run(Init(b, n), schedule))
    ensures var h := Run(Init(b, n), schedule).host;
            && h.frees == (if Owners(h, 0) == 0 then 1 else 0)
            && h.disposals == (if b.DotNet? then h.frees else 0)
  {
    RunKeepsInv(b, n, schedule);
    IdleTotals(Run(Init(b, n), schedule).pcs);
  }

  // ---------------------------------------------------------------- driving threads to the end

  /** One more turn of a run without a violation. */
  lemma OneMore(b: Binding, n: nat, schedule: seq<Turn>, turn: Turn) returns (more: seq<Turn>)
    requires !Run(Init(b, n), schedule).host.violated && turn.thread < n
    ensures more == schedule + [turn]
    ensures var w, w' := Run(Init(b, n), schedule), Run(Init(b, n), more);
            && Inv(w) && |w.pcs| == n && w.host.binding == b
            && (w'.host.violated || (Inv(w') && w' == Moved(w, turn.thread, turn.choice)))
            && w'.host.swallowed >= w.host.swallowed
  {
    more := schedule + [turn];
    assert more[..|more| - 1] == schedule;
    RunKeepsInv(b, n, schedule);
    StepKeepsInv(Run(Init(b, n), schedule), turn);
    StepMonotone(Run(Init(b, n), schedule), turn);
  }

  /** How many turns a thread at `pc` needs at most to finish, if it is left alone. */
  ghost function Rank(h: Host, pc: Pc): nat {
    match pc
    case Idle => 0
    case FreeHandle => 1
    case DisposeNative => 2
    case Decrement => 3
    case ExchangeContext => 4
    case InCallback => 4
    case RetainSwap(_, observed) => if observed == h.retains then 5 else 7
    case RetainRead(_) => 6
    case ReadContext => 7
  }

  lemma RankDecreases(h: Host, pc: Pc)
    requires pc != Idle && HostOk(h)
    ensures var after := StepOne(h, pc, Return); Rank(after.0, after.1) < Rank(h, pc)
  {
  }

  /** Finishing one thread; without a violation the others stay where they are. */
  lemma {:induction false} FinishThread(b: Binding, n: nat, schedule: seq<Turn>, i: nat) returns (more: seq<Turn>)
    requires i < n == |Run(Init(b, n), schedule).pcs| && !Run(Init(b, n), schedule).host.violated
    ensures schedule <= more
    ensures var w, w' := Run(Init(b, n), schedule), Run(Init(b, n), more);
            && |w'.pcs| == n
            && (w'.host.violated || w'.pcs == w.pcs[i := Idle]) && w'.host.swallowed >= w.host.swallowed
    decreases Rank(Run(Init(b, n), schedule).host, Run(Init(b, n), schedule).pcs[i])
  {
    RunKeepsInv(b, n, schedule);
    var w := Run(Init(b, n), schedule);
    if w.pcs[i] == Idle {
      more := schedule;
      assert w.pcs[i := Idle] == w.pcs;
    } else {
      var next := OneMore(b, n, schedule, Turn(i, Return));
      RankDecreases(w.host, w.pcs[i]);
      RunKeepsInv(b, n, next);
      more := next;
      if !Run(Init(b, n), next).host.violated {
        more := FinishThread(b, n, next, i);
        assert w.pcs[i := StepOne(w.host, w.pcs[i], Return).1][i := Idle] == w.pcs[i := Idle];
      }
    }
  }

  /** Finishing the threads from `i` on. */
  lemma {:induction false} FinishThreads(b: Binding, n: nat, schedule: seq<Turn>, i: nat) returns (more: seq<Turn>)
    requires i <= n && !Run(Init(b, n), schedule).host.violated
    requires |Run(Init(b, n), schedule).pcs| == n
    requires forall j :: 0 <= j < i ==> Run(Init(b, n), schedule).pcs[j] == Idle
    ensures schedule <= more
    ensures var w, w' := Run(Init(b, n), schedule), Run(Init(b, n), more);
            (w'.host.violated || AllIdle(w')) && w'.host.swallowed >= w.host.swallowed
    decreases n - i
  {
    more := schedule;
    if i < n {
      more := FinishThread(b, n, schedule, i);
      if !Run(Init(b, n), more).host.violated {
        more := FinishThreads(b, n, more, i + 1);
      }
    }
  }

  // ---------------------------------------------------------------- what a swallowed retain leads to

  /** Turns that start no retain. */
  predicate OnlyReleases(more: seq<Turn>) {
    forall i :: 0 <= i < |more| ==> more[i].choice in {Dispose, ForeignRelease, Return}
  }

  /** One idle thread gives back a retain; as long as one was swallowed, the count stays positive. */
  lemma GiveBack(b: Binding, n: nat, schedule: seq<Turn>) returns (more: seq<Turn>)
    requires n > 0 && !Run(Init(b, n), schedule).host.violated && AllIdle(Run(Init(b, n), schedule))
    requires var h := Run(Init(b, n), schedule).host; !h.wrapper && h.swallowed > 0
    ensures OnlyReleases(more)
    ensures var w, w' := Run(Init(b, n), schedule), Run(Init(b, n), schedule + more);
            w'.host.violated || (w.host.pool > 0 && AllIdle(w') && 0 < w'.host.retains
                                 && w'.host == w.host.(retains := w.host.retains - 1, pool := w.host.pool - 1))
  {
    var w := Run(Init(b, n), schedule);
    var first := OneMore(b, n, schedule, Turn(0, ForeignRelease));
    IdleTotals(w.pcs);
    more := [Turn(0, ForeignRelease)];
    if !Run(Init(b, n), first).host.violated {
      var second := OneMore(b, n, first, Turn(0, Return));
      more := [Turn(0, ForeignRelease), Turn(0, Return)];
      assert second == schedule + more;
    }
  }

  lemma RunFurther(w: World, schedule: seq<Turn>, first: seq<Turn>, second: seq<Turn>)
    ensures Run(w, schedule + first + second) == Run(w, schedule + (first + second))
  {
    assert schedule + first + second == schedule + (first + second);
  }

  lemma {:induction false} Descend(b: Binding, n: nat, schedule: seq<Turn>) returns (more: seq<Turn>)
    requires n > 0 && !Run(Init(b, n), schedule).host.violated && AllIdle(Run(Init(b, n), schedule))
    requires var h := Run(Init(b, n), schedule).host; !h.wrapper && h.swallowed > 0 && h.retains >= 0
    ensures OnlyReleases(more) && Run(Init(b, n), schedule + more).host.violated
    decreases Run(Init(b, n), schedule).host.retains
  {
    more := GiveBack(b, n, schedule);
    if !Run(Init(b, n), schedule + more).host.violated {
      var rest := Descend(b, n, schedule + more);
      RunFurther(Init(b, n), schedule, more, rest);
      more := more + rest;
    }
  }

  /** `Dispose` takes the context out of the wrapper. */
  lemma ClearWrapper(b: Binding, n: nat, schedule: seq<Turn>) returns (more: seq<Turn>)
    requires n > 0 && !Run(Init(b, n), schedule).host.violated && AllIdle(Run(Init(b, n), schedule))
    requires Run(Init(b, n), schedule).host.wrapper
    ensures OnlyReleases(more)
    ensures var w, w' := Run(Init(b, n), schedule), Run(Init(b, n), schedule + more);
            || w'.host.violated
            || (|w.pcs| == n && w'.host == w.host.(wrapper := false) && w'.pcs == w.pcs[0 := Decrement])
  {
    var first := OneMore(b, n, schedule, Turn(0, Dispose));
    more := [Turn(0, Dispose)];
    if !Run(Init(b, n), first).host.violated {
      var second := OneMore(b, n, first, Turn(0, Return));
      more := [Turn(0, Dispose), Turn(0, Return)];
      assert second == schedule + more;
    }
  }

  /** And gives back its retain. */
  lemma DisposeWrapper(b: Binding, n: nat, schedule: seq<Turn>) returns (more: seq<Turn>)
    requires n > 0 && !Run(Init(b, n), schedule).host.violated && AllIdle(Run(Init(b, n), schedule))
    requires var h := Run(Init(b, n), schedule).host; h.wrapper && h.swallowed > 0
    ensures OnlyReleases(more)
    ensures var w, w' := Run(Init(b, n), schedule), Run(Init(b, n), schedule + more);
            w'.host.violated || (w'.host == w.host.(retains := w.host.retains - 1, wrapper := false) && AllIdle(w'))
  {
    more := ClearWrapper(b, n, schedule);
    if !Run(Init(b, n), schedule + more).host.violated {
      var last := OneMore(b, n, schedule + more, Turn(0, Return));
      more := more + [Turn(0, Return)];
      assert last == schedule + more;
    }
  }

  lemma DescendAfter(b: Binding, n: nat, schedule: seq<Turn>, first: seq<Turn>) returns (more: seq<Turn>)
    requires n > 0 && OnlyReleases(first)
    requires var w := Run(Init(b, n), schedule + first);
             w.host.violated || (AllIdle(w) && !w.host.wrapper && w.host.swallowed > 0)
    ensures OnlyReleases(more) && Run(Init(b, n), schedule + more).host.violated
  {
    more := first;
    if !Run(Init(b, n), schedule + first).host.violated {
      RunKeepsInv(b, n, schedule + first);
      var rest := Descend(b, n, schedule + first);
      assert schedule + first + rest == schedule + (first + rest);
      more := first + rest;
    }
  }

  /** From a state at rest, releases alone reach a violation once a retain was swallowed. */
  lemma IdleSwallowedIsDoomed(b: Binding, n: nat, schedule: seq<Turn>) returns (more: seq<Turn>)
    requires n > 0 && AllIdle(Run(Init(b, n), schedule)) && Run(Init(b, n), schedule).host.swallowed > 0
    ensures OnlyReleases(more) && Run(Init(b, n), schedule + more).host.violated
  {
    assert schedule + [] == schedule;
    var first: seq<Turn> := [];
    if !Run(Init(b, n), schedule).host.violated && Run(Init(b, n), schedule).host.wrapper {
      first := DisposeWrapper(b, n, schedule);
    }
    more := DescendAfter(b, n, schedule, first);
  }

  /** From every state with a swallowed retain, some continuation tears down under an owner. */
  lemma SwallowedIsDoomed(b: Binding, n: nat, schedule: seq<Turn>) returns (more: seq<Turn>)
    requires n > 0 && Run(Init(b, n), schedule).host.swallowed > 0
    ensures schedule <= more && Run(Init(b, n), more).host.violated
  {
    more := schedule;
    if !Run(Init(b, n), schedule).host.violated {
      RunKeepsInv(b, n, schedule);
      more := FinishThreads(b, n, schedule, 0);
      if !Run(Init(b, n), more).host.violated {
        var rest := IdleSwallowedIsDoomed(b, n, more);
        more := more + rest;
      }
    }
  }

  // ---------------------------------------------------------------- the exact condition

  predicate Calm(pc: Pc) {
    pc.Idle? || pc.ExchangeContext? || pc.Decrement? || pc.DisposeNative? || pc.FreeHandle?
  }

  lemma CalmStep(h: Host, pc: Pc, choice: Choice)
    requires Calm(pc) && choice in {Dispose, ForeignRelease, Return}
    ensures Calm(StepOne(h, pc, choice).1) && StepOne(h, pc, choice).0.swallowed == h.swallowed
  {
  }

  lemma {:induction false} CalmRun(w: World, more: seq<Turn>)
    requires OnlyReleases(more) && forall i :: 0 <= i < |w.pcs| ==> Calm(w.pcs[i])
    ensures var w' := Run(w, more);
            w'.host.swallowed == w.host.swallowed && forall i :: 0 <= i < |w'.pcs| ==> Calm(w'.pcs[i])
  {
    if more != [] {
      var w', turn := Run(w, more[..|more| - 1]), more[|more| - 1];
      CalmRun(w, more[..|more| - 1]);
      assert turn.choice in {Dispose, ForeignRelease, Return};
      if turn.thread < |w'.pcs| {
        CalmStep(w'.host, w'.pcs[turn.thread], turn.choice);
        AuditKeepsSwallowed(Moved(w', turn.thread, turn.choice));
      }
    }
  }

  lemma {:induction false} RunAppend(w: World, first: seq<Turn>, second: seq<Turn>)
    ensures Run(w, first + second) == Run(Run(w, first), second)
    decreases |second|
  {
    var all := first + second;
    if second == [] {
      assert all == first;
    } else {
      assert all[..|all| - 1] == first + second[..|second| - 1];
      RunAppend(w, first, second[..|second| - 1]);
    }
  }

  /**
   The exact condition, for a state at rest: giving back what is owned can go wrong if and only
   if an ABI retain was swallowed before.
   */
  lemma ReleasesAreSafeIff(b: Binding, n: nat, schedule: seq<Turn>)
    requires n > 0 && AllIdle(Run(Init(b, n), schedule))
    ensures (exists more :: OnlyReleases(more) && Run(Init(b, n), schedule + more).host.violated)
            <==> Run(Init(b, n), schedule).host.swallowed > 0
  {
    if Run(Init(b, n), schedule).host.swallowed > 0 {
      var more := IdleSwallowedIsDoomed(b, n, schedule);
    } else {
      forall more | OnlyReleases(more) ensures !Run(Init(b, n), schedule + more).host.violated {
        RunAppend(Init(b, n), schedule, more);
        CalmRun(Run(Init(b, n), schedule), more);
        UnswallowedNotViolated(b, n, schedule + more);
      }
    }
  }

  // ---------------------------------------------------------------- reaching the limit

  /** A host at rest with one thread, whose pool holds `k`. */
  ghost function Parked(b: Binding, k: nat): World {
    World(Host(b, if b.DotNet? then k + 1 else k, b.DotNet?, k, 0, 0, 0, false), [Idle])
  }

  /** One more turn of a single thread that is not tearing down: no audit finding. */
  lemma Extend(w: World, schedule: seq<Turn>, h: Host, pc: Pc, choice: Choice) returns (more: seq<Turn>)
    requires Run(w, schedule) == World(h, [pc])
    requires !Tearing(StepOne(h, pc, choice).1)
    ensures more == schedule + [Turn(0, choice)]
    ensures Run(w, more) == World(StepOne(h, pc, choice).0, [StepOne(h, pc, choice).1])
  {
    more := schedule + [Turn(0, choice)];
    assert more[..|more| - 1] == schedule;
    assert [pc][0 := StepOne(h, pc, choice).1] == [StepOne(h, pc, choice).1];
  }

  /** Foreign code that owns a retain adds one; at the limit the attempt is swallowed. */
  lemma ForeignRetainRun(w: World, schedule: seq<Turn>, h: Host) returns (more: seq<Turn>)
    requires Run(w, schedule) == World(h, [Idle])
    requires h.frees == 0 && h.pool > 0 && 0 < h.retains <= Limit(h.binding)
    ensures Run(w, more) ==
            World(if h.retains < Limit(h.binding) then h.(retains := h.retains + 1, pool := h.pool + 1)
                  else h.(swallowed := h.swallowed + 1, pool := h.pool + 1), [Idle])
  {
    var h1 := h.(pool := h.pool - 1);
    assert ResolveHandle(h1) == h1;
    more := Extend(w, schedule, h, Idle, ForeignRetain);
    more := Extend(w, more, h1, RetainRead(Foreign), Return);
    more := Extend(w, more, h1, RetainSwap(Foreign, h.retains), Return);
  }

  /** A callback is entered through the wrapper. */
  lemma EnterCallback() returns (more: seq<Turn>)
    ensures Run(Parked(DotNet, 0), more) == World(Parked(DotNet, 0).host.(retains := 2), [InCallback])
  {
    var w := Parked(DotNet, 0);
    more := Extend(w, [], w.host, Idle, WithResource);
    more := Extend(w, more, w.host, ReadContext, Return);
    more := Extend(w, more, w.host, RetainRead(Wrapper), Return);
    more := Extend(w, more, w.host, RetainSwap(Wrapper, 1), Return);
  }

  /** It retains for foreign code. */
  lemma RetainInCallback() returns (more: seq<Turn>)
    ensures Run(Parked(DotNet, 0), more) == World(Parked(DotNet, 0).host.(retains := 3, pool := 1), [InCallback])
  {
    var w := Parked(DotNet, 0);
    var h := w.host.(retains := 2);
    assert ResolveHandle(h) == h;
    more := EnterCallback();
    more := Extend(w, more, h, InCallback, ForeignRetain);
    more := Extend(w, more, h, RetainRead(Callback), Return);
    more := Extend(w, more, h, RetainSwap(Callback, 2), Return);
  }

  /** So foreign code comes to own the first retain the wrapper does not hold. */
  lemma FirstForeignRetain() returns (more: seq<Turn>)
    ensures Run(Parked(DotNet, 0), more) == Parked(DotNet, 1)
  {
    var w := Parked(DotNet, 0);
    var h := w.host.(retains := 3, pool := 1);
    more := RetainInCallback();
    more := Extend(w, more, h, InCallback, Return);
    more := Extend(w, more, h, Decrement, Return);
  }

  lemma {:induction false} Climb(b: Binding, k: nat) returns (schedule: seq<Turn>)
    requires 0 < k && Parked(b, k).host.retains <= Limit(b)
    ensures Run(Init(b, 1), schedule) == Parked(b, k)
  {
    assert Init(b, 1).pcs == [Idle];
    if k > 1 {
      schedule := Climb(b, k - 1);
      schedule := ForeignRetainRun(Init(b, 1), schedule, Parked(b, k - 1).host);
    } else if b.DotNet? {
      schedule := FirstForeignRetain();
    } else {
      schedule := [];
    }
  }

  /**
   The condition of `TeardownIsSafe` cannot be dropped, in either binding: the limit can be
   reached, a retain can be swallowed there, and then the provider can be torn down while
   foreign code owns a retain.
   */
  lemma SwallowedRetainIsUnsafe(b: Binding) returns (swallowing: seq<Turn>, more: seq<Turn>)
    ensures var h := Run(Init(b, 1), swallowing).host; h.swallowed == 1 && !h.violated
    ensures OnlyReleases(more) && Run(Init(b, 1), swallowing + more).host.violated
  {
    var k := if b.DotNet? then Limit(b) - 1 else Limit(b);
    swallowing := Climb(b, k);
    swallowing := ForeignRetainRun(Init(b, 1), swallowing, Parked(b, k).host);
    more := IdleSwallowedIsDoomed(b, 1, swallowing);
  }
}
