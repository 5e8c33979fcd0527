/**
 The native calls of a Go semiring context, judged by the log of all of them and not by the ledger
 that keeps it: `Legal` says what a provider may expect of call `i` after the calls before it.
 */
module SemiringLedger {
  import opened Interop
  import opened SemiringLifetime
  import opened SemiringInvariant
  import opened SemiringSafety
  import opened SemiringTheorems
  import opened SemiringOperations

  /** How many tokens the calls handed out: they are numbered from zero. */
  function Issued(log: seq<NativeCall>): nat {
    if log == [] then 0 else Issued(log[..|log| - 1]) + if log[|log| - 1].Issue? then 1 else 0
  }

  /** A token that was handed out and not given back. */
  predicate InUse(log: seq<NativeCall>, t: nat) {
    t < Issued(log) && ReleaseToken(t) !in log
  }

  /**
   After the calls in `log`: nothing follows the release of the resource; an operation is given
   tokens in use; a token in use is given back; and the resource is released when none is in use.
   */
  ghost predicate Allowed(log: seq<NativeCall>, call: NativeCall) {
    && ReleaseResource !in log
    && match call
       case Operate(operands) => forall t :: t in operands ==> InUse(log, t)
       case Issue => true
       case ReleaseToken(t) => InUse(log, t)
       case ReleaseResource => forall t: nat :: !InUse(log, t)
  }

  ghost predicate Legal(log: seq<NativeCall>) {
    forall i :: 0 <= i < |log| ==> Allowed(log[..i], log[i])
  }

  /** What the ledger keeps is what the log says, and it is unviolated only if all calls were legal. */
  ghost predicate Faithful(g: Ledger) {
    && g.issued == Issued(g.log)
    && (forall t: nat :: t in g.spent <==> ReleaseToken(t) in g.log)
    && (g.resourceReleases > 0 <==> ReleaseResource in g.log)
    && (!g.violated ==> Legal(g.log))
  }

  lemma LegalAppend(log: seq<NativeCall>, call: NativeCall)
    requires Legal(log) && Allowed(log, call)
    ensures Legal(log + [call])
  {
    var more := log + [call];
    forall i | 0 <= i < |more| ensures Allowed(more[..i], more[i]) {
      assert more[..i] == if i < |log| then log[..i] else log;
    }
  }

  /** One more call in the log. */
  lemma LogMore(log: seq<NativeCall>, call: NativeCall)
    ensures Issued(log + [call]) == Issued(log) + if call.Issue? then 1 else 0
    ensures forall x :: x in log + [call] <==> x in log || x == call
  {
    assert (log + [call])[..|log|] == log;
  }

  /** The ledger knows which tokens are in use. */
  lemma KnowsTokens(g: Ledger, t: nat)
    requires Faithful(g)
    ensures InUse(g.log, t) <==> t < g.issued && t !in g.spent
  {
  }

  /** A call that does not count as a violation is allowed. */
  lemma UnviolatedIsAllowed(g: Ledger, call: NativeCall)
    requires Faithful(g) && !Observe(g, call).violated
    ensures Allowed(g.log, call) && !g.violated
  {
    forall t: nat ensures InUse(g.log, t) <==> t < g.issued && t !in g.spent {
      KnowsTokens(g, t);
    }
  }

  lemma ObservedFields(g: Ledger, call: NativeCall)
    ensures var g' := Observe(g, call);
            && g'.log == g.log + [call] && g'.issued == g.issued + (if call.Issue? then 1 else 0)
            && g'.spent == (if call.ReleaseToken? then g.spent + {call.token} else g.spent)
            && g'.resourceReleases == g.resourceReleases + (if call.ReleaseResource? then 1 else 0)
  {
  }

  lemma ObserveFaithful(g: Ledger, call: NativeCall)
    requires Faithful(g)
    ensures Faithful(Observe(g, call))
  {
    var g' := Observe(g, call);
    ObservedFields(g, call);
    LogMore(g.log, call);
    if !g'.violated {
      UnviolatedIsAllowed(g, call);
      LegalAppend(g.log, call);
    }
  }

  /** The call a step makes, if it makes one. */
  function CallOf(s: Shared, g: Goroutine, choice: Choice): Option<NativeCall> {
    match g.pc
    case Calling => Some(Operate(Operands(g.held)))
    case InCall => if choice == Answer(true) then Some(Issue) else None
    case Reject(t) => Some(ReleaseToken(t))
    case FreeToken(l) => if l.ValueLease? then Some(ReleaseToken(l.id)) else None
    case FreeCore => Some(ReleaseResource)
    case _ => None
  }

  /** A step reports its call, if any, and nothing else; only an underflow is recorded besides. */
  lemma StepLedger(s: Shared, g: Goroutine, choice: Choice)
    ensures var after, call := StepOne(s, g, choice).0.ledger, CallOf(s, g, choice);
            if call.Some? then after == Observe(s.ledger, call.value)
            else after == s.ledger || after == s.ledger.(violated := true)
  {
  }

  lemma {:induction false} RunFaithful(n: nat, schedule: seq<Turn>)
    ensures Faithful(Run(Init(n), schedule).shared.ledger)
  {
    if schedule != [] {
      var w, turn := Run(Init(n), schedule[..|schedule| - 1]), schedule[|schedule| - 1];
      RunFaithful(n, schedule[..|schedule| - 1]);
      if turn.goroutine < |w.goroutines| {
        var g := w.goroutines[turn.goroutine];
        StepLedger(w.shared, g, turn.choice);
        var call := CallOf(w.shared, g, turn.choice);
        if call.Some? {
          ObserveFaithful(w.shared.ledger, call.value);
        }
      }
    }
  }

  /**
   In every run every native call is legal, judged by the calls before it, and the resource is
   released at most once.
   */
  lemma EveryCallIsLegal(n: nat, schedule: seq<Turn>, i: nat)
    requires i < |Run(Init(n), schedule).shared.ledger.log|
    ensures var log := Run(Init(n), schedule).shared.ledger.log; Allowed(log[..i], log[i])
  {
    RunFaithful(n, schedule);
    NoIllegalNativeCall(n, schedule);
  }

  /**
   And no call goes unreported: a goroutine that makes its native call, gets a token, gives one back
   or releases the resource adds exactly that call to the log, with the tokens its operation names.
   */
  lemma CallsAreLogged(n: nat, schedule: seq<Turn>, i: nat, choice: Choice)
    requires i < |Run(Init(n), schedule).goroutines|
    ensures var w := Run(Init(n), schedule);
            var log := Step(w, Turn(i, choice)).shared.ledger.log;
            match w.goroutines[i].pc
            case Calling =>
              && |log| == |w.shared.ledger.log| + 1 && w.shared.ledger.log <= log
              && log[|log| - 1].Operate? && Started(n, schedule, i).Some?
              && (forall t :: t in log[|log| - 1].operands <==> Names(Started(n, schedule, i).value, ValueLease(t)))
            case InCall => log == w.shared.ledger.log + if choice == Answer(true) then [Issue] else []
            case Reject(t) => log == w.shared.ledger.log + [ReleaseToken(t)]
            case FreeToken(l) => l.ValueLease? && log == w.shared.ledger.log + [ReleaseToken(l.id)]
            case FreeCore => log == w.shared.ledger.log + [ReleaseResource]
            case _ => log == w.shared.ledger.log
  {
    var w := Run(Init(n), schedule);
    var g := w.goroutines[i];
    StepLedger(w.shared, g, choice);
    ReleasesAreLegal(n, schedule, i);
    if g.pc.Calling? {
      CallGetsItsOperands(n, schedule, i, choice);
    }
    assert w.shared.ledger.log + [] == w.shared.ledger.log;
  }
}
