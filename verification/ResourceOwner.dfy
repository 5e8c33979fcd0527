/**
 `resourceOwner` of bindings/go/resource.go: a close bit and a borrow count in one word, and
 a native release that must happen once, after the last borrow.

 The class is the code of one goroutine.  `rivals` are the values other goroutines store into
 the word between this goroutine's load and its compare-and-swap, one per attempt.
 */
module ResourceOwner {
  import opened AtomicWord

  /** The words the owner goes through: its own, then what the rivals store. */
  function History(state: Word, rivals: seq<Word>): seq<Word> {
    [state] + rivals
  }

  /** The fields of an owner, as a value. */
  datatype OwnerState = OwnerState(state: Word, releaseOnce: bool, nativeReleases: nat)

  class Owner {
    var state: Word
    var releaseOnce: bool
    var nativeReleases: nat

    function View(): OwnerState
      reads this
    {
      OwnerState(state, releaseOnce, nativeReleases)
    }

    constructor ()
      ensures View() == OwnerState(Encode(Lease(false, 0)), false, 0)
    {
      state, releaseOnce, nativeReleases := 0, false, 0;
    }

    method CompareAndSwap(expected: Word, desired: Word) returns (swapped: bool)
      modifies this`state
      ensures swapped <==> old(state) == expected
      ensures state == if swapped then desired else old(state)
    {
      swapped := state == expected;
      if swapped {
        state := desired;
      }
    }

    method ReleaseNative()
      modifies this`releaseOnce, this`nativeReleases
      ensures releaseOnce
      ensures nativeReleases == old(nativeReleases) + if old(releaseOnce) then 0 else 1
    {
      if !releaseOnce {
        releaseOnce := true;
        nativeReleases := nativeReleases + 1;
      }
    }

    /**
     However rivals interfere, the retry loop acts on one word of the history: it increments
     that word if it is open and not full, and otherwise leaves it alone and reports failure.
     */
    method Acquire(rivals: seq<Word>) returns (acquired: bool, at: nat)
      modifies this`state
      ensures at <= |rivals|
      ensures var seen := History(old(state), rivals)[at];
              && (acquired <==> !Decode(seen).closed && Decode(seen).count + 1 < CLOSED_BIT)
              && Decode(state) == if acquired then Lease(false, Decode(seen).count + 1) else Decode(seen)
    {
      at := 0;
      while true
        invariant at <= |rivals| && state == History(old(state), rivals)[at]
        decreases |rivals| - at
      {
        var seen := state;
        if HasClosedBit(seen) {
          return false, at;
        }
        if seen == CLOSED_BIT - 1 {
          return false, at;
        }
        if at < |rivals| {
          state := rivals[at];
          at := at + 1;
        }
        var swapped := CompareAndSwap(seen, Increment(seen));
        if swapped {
          return true, at;
        }
      }
    }

    /** The borrow that empties a closed owner performs the native release. */
    method ReleaseBorrow()
      requires Decode(state).count > 0
      modifies this
      ensures Decode(state) == Lease(old(Decode(state)).closed, old(Decode(state)).count - 1)
      ensures releaseOnce == (old(releaseOnce) || Decode(state) == Lease(true, 0))
      ensures nativeReleases == old(nativeReleases)
              + if Decode(state) == Lease(true, 0) && !old(releaseOnce) then 1 else 0
    {
      state := AddMinusOne(state);
      if state == CLOSED_BIT {
        ReleaseNative();
      }
    }

    /** Closing acts on one word of the history, and releases at once only if it was unborrowed. */
    method Close(rivals: seq<Word>) returns (at: nat)
      modifies this
      ensures at <= |rivals|
      ensures var seen := History(old(state), rivals)[at];
              && Decode(state) == Lease(true, Decode(seen).count)
              && nativeReleases == old(nativeReleases)
                 + if Decode(seen) == Lease(false, 0) && !old(releaseOnce) then 1 else 0
    {
      at := 0;
      while true
        invariant at <= |rivals| && state == History(old(state), rivals)[at]
        invariant unchanged(`releaseOnce) && unchanged(`nativeReleases)
        decreases |rivals| - at
      {
        var seen := state;
        if HasClosedBit(seen) {
          return;
        }
        if at < |rivals| {
          state := rivals[at];
          at := at + 1;
        }
        var swapped := CompareAndSwap(seen, SetClosedBit(seen));
        if swapped {
          if seen == 0 {
            ReleaseNative();
          }
          return;
        }
      }
    }
  }
}

/**
 The owner under any number of goroutines.  Each atomic load, compare-and-swap and add, the
 callback and the native release are separate steps, and a run is an arbitrary schedule.
 */
module ResourceOwnerRuns {
  import opened AtomicWord
  import opened ResourceOwner

  datatype Pc =
    | Idle
    | AcquireLoad
    | AcquireSwap(seen: Word)
    | InCallback
    | ReleaseAdd                 // the deferred releaseBorrow
    | CloseLoad
    | CloseSwap(seen: Word)
    | EnterOnce                  // about to run releaseOnce
    | FreeNative                 // inside it, before the native release

  datatype World = World(owner: OwnerState, pcs: seq<Pc>)

  datatype Choice = WithResource | Close

  function Init(n: nat): World {
    World(OwnerState(0, false, 0), seq(n, i => Idle))
  }

  function StepOne(o: OwnerState, pc: Pc, choice: Choice): (OwnerState, Pc) {
    match pc
    case Idle => (o, if choice.Close? then CloseLoad else AcquireLoad)
    case AcquireLoad => (o, if Acquirable(o.state) then AcquireSwap(o.state) else Idle)
    case AcquireSwap(seen) =>
      if o.state == seen then (o.(state := Increment(seen)), InCallback) else (o, AcquireLoad)
    case InCallback => (o, ReleaseAdd)
    case ReleaseAdd =>
      var state := AddMinusOne(o.state);
      (o.(state := state), if state == CLOSED_BIT then EnterOnce else Idle)
    case CloseLoad => (o, if HasClosedBit(o.state) then Idle else CloseSwap(o.state))
    case CloseSwap(seen) =>
      if o.state == seen
      then (o.(state := SetClosedBit(seen)), if seen == 0 then EnterOnce else Idle)
      else (o, CloseLoad)
    case EnterOnce => if o.releaseOnce then (o, Idle) else (o.(releaseOnce := true), FreeNative)
    case FreeNative => (o.(nativeReleases := o.nativeReleases + 1), Idle)
  }

  datatype Turn = Turn(goroutine: nat, choice: Choice)

  function Step(w: World, turn: Turn): World {
    if turn.goroutine < |w.pcs| then
      var after := StepOne(w.owner, w.pcs[turn.goroutine], turn.choice);
      World(after.0, w.pcs[turn.goroutine := after.1])
    else w
  }

  function Run(w: World, schedule: seq<Turn>): (r: World)
    ensures |r.pcs| == |w.pcs|
  {
    if schedule == [] then w
    else Step(Run(w, schedule[..|schedule| - 1]), schedule[|schedule| - 1])
  }

  // ---------------------------------------------------------------- counting goroutines

  datatype Role = Borrowing | Entering | Freeing

  predicate Plays(pc: Pc, r: Role) {
    match r
    case Borrowing => pc.InCallback? || pc.ReleaseAdd?
    case Entering => pc.EnterOnce?
    case Freeing => pc.FreeNative?
  }

  /** How many goroutines play role `r`. */
  ghost function Count(pcs: seq<Pc>, r: Role): nat {
    if pcs == [] then 0 else (if Plays(pcs[0], r) then 1 else 0) + Count(pcs[1..], r)
  }

  lemma {:induction false} CountReplace(pcs: seq<Pc>, i: nat, pc: Pc, r: Role)
    requires i < |pcs|
    ensures Count(pcs[i := pc], r) + (if Plays(pcs[i], r) then 1 else 0)
            == Count(pcs, r) + (if Plays(pc, r) then 1 else 0)
    ensures Plays(pcs[i], r) ==> Count(pcs, r) > 0
  {
    if i == 0 {
      assert pcs[0 := pc][1..] == pcs[1..];
    } else {
      CountReplace(pcs[1..], i - 1, pc, r);
      assert pcs[i := pc][1..] == pcs[1..][i - 1 := pc];
    }
  }

  lemma {:induction false} CountNone(pcs: seq<Pc>, r: Role)
    requires forall i :: 0 <= i < |pcs| ==> !Plays(pcs[i], r)
    ensures Count(pcs, r) == 0
  {
    if pcs != [] {
      assert !Plays(pcs[0], r);
      CountNone(pcs[1..], r);
    }
  }

  ghost predicate Balanced(o: OwnerState, borrowing: nat, entering: nat, freeing: nat) {
    && borrowing < CLOSED_BIT
    && (o.state == borrowing || o.state == CLOSED_BIT + borrowing)
    && entering + freeing + o.nativeReleases == (if o.state == CLOSED_BIT then 1 else 0)
    && (if o.releaseOnce then entering == 0 && o.state == CLOSED_BIT
        else freeing == 0 && o.nativeReleases == 0)
  }

  ghost predicate PcOk(pc: Pc) {
    && (pc.AcquireSwap? ==> Acquirable(pc.seen))
    && (pc.CloseSwap? ==> !HasClosedBit(pc.seen))
  }

  ghost predicate Inv(w: World) {
    && Balanced(w.owner, Count(w.pcs, Borrowing), Count(w.pcs, Entering), Count(w.pcs, Freeing))
    && (forall i :: 0 <= i < |w.pcs| ==> PcOk(w.pcs[i]))
  }

  /** A goroutine's part in the count of a role. */
  function Part(pc: Pc, r: Role): nat {
    if Plays(pc, r) then 1 else 0
  }

  /** What a step does to the counts, without the other goroutines. */
  lemma StepOneBalanced(o: OwnerState, pc: Pc, choice: Choice, borrowing: nat, entering: nat, freeing: nat)
    requires Balanced(o, borrowing, entering, freeing) && PcOk(pc)
    requires Part(pc, Borrowing) <= borrowing && Part(pc, Entering) <= entering && Part(pc, Freeing) <= freeing
    ensures var after := StepOne(o, pc, choice);
            && PcOk(after.1)
            && Balanced(after.0, borrowing - Part(pc, Borrowing) + Part(after.1, Borrowing),
                        entering - Part(pc, Entering) + Part(after.1, Entering),
                        freeing - Part(pc, Freeing) + Part(after.1, Freeing))
  {
  }

  lemma StepKeepsInv(w: World, turn: Turn)
    requires Inv(w)
    ensures Inv(Step(w, turn))
  {
    var i := turn.goroutine;
    if i < |w.pcs| {
      assert PcOk(w.pcs[i]);
      var after := StepOne(w.owner, w.pcs[i], turn.choice);
      CountReplace(w.pcs, i, after.1, Borrowing);
      CountReplace(w.pcs, i, after.1, Entering);
      CountReplace(w.pcs, i, after.1, Freeing);
      StepOneBalanced(w.owner, w.pcs[i], turn.choice,
                      Count(w.pcs, Borrowing), Count(w.pcs, Entering), Count(w.pcs, Freeing));
    }
  }

  lemma {:induction false} RunKeepsInv(n: nat, schedule: seq<Turn>)
    ensures Inv(Run(Init(n), schedule))
  {
    if schedule == [] {
      forall r: Role ensures Count(Init(n).pcs, r) == 0 {
        CountNone(Init(n).pcs, r);
      }
    } else {
      RunKeepsInv(n, schedule[..|schedule| - 1]);
      StepKeepsInv(Run(Init(n), schedule[..|schedule| - 1]), schedule[|schedule| - 1]);
    }
  }

  // ---------------------------------------------------------------- theorems

  /** In every reachable state the low 63 bits are the borrows in flight. */
  lemma WordCountsBorrows(n: nat, schedule: seq<Turn>)
    ensures var w := Run(Init(n), schedule);
            Decode(w.owner.state).count == Count(w.pcs, Borrowing)
  {
    RunKeepsInv(n, schedule);
  }

  /**
   At most one goroutine is ever in `releaseNative`, it finds the once unfired, and no
   callback is running and no borrow is held then or ever after.
   */
  lemma ReleaseIsExclusive(n: nat, schedule: seq<Turn>)
    ensures var w := Run(Init(n), schedule);
            var releasing := Count(w.pcs, Entering) + Count(w.pcs, Freeing);
            && releasing + w.owner.nativeReleases <= 1
            && (Count(w.pcs, Entering) > 0 ==> !w.owner.releaseOnce)
            && (releasing + w.owner.nativeReleases == 1 ==>
                  Decode(w.owner.state) == Lease(true, 0) && Count(w.pcs, Borrowing) == 0)
  {
    RunKeepsInv(n, schedule);
  }

  /** A goroutine that is in `close` and has not found or set the close bit yet. */
  predicate Closing(pc: Pc) {
    pc.CloseLoad? || pc.CloseSwap?
  }

  /** Turn `k` of the schedule starts a call of `Close`. */
  ghost predicate StartsClose(n: nat, schedule: seq<Turn>, k: nat) {
    && k < |schedule| && schedule[k].choice.Close?
    && var pcs := Run(Init(n), schedule[..k]).pcs; schedule[k].goroutine < |pcs| && pcs[schedule[k].goroutine].Idle?
  }

  ghost predicate CloseStarted(n: nat, schedule: seq<Turn>) {
    exists k :: StartsClose(n, schedule, k)
  }

  /** The close bit is set, or somebody is about to set it. */
  ghost predicate CloseUnderWay(w: World) {
    HasClosedBit(w.owner.state) || exists i :: 0 <= i < |w.pcs| && Closing(w.pcs[i])
  }

  lemma CloseStep(o: OwnerState, pc: Pc, choice: Choice, borrowing: nat, entering: nat, freeing: nat)
    requires Balanced(o, borrowing, entering, freeing) && PcOk(pc) && (Plays(pc, Borrowing) ==> borrowing > 0)
    ensures var after := StepOne(o, pc, choice);
            && (HasClosedBit(o.state) ==> HasClosedBit(after.0.state))
            && (Closing(pc) ==> HasClosedBit(after.0.state) || Closing(after.1))
            && (HasClosedBit(after.0.state) ==> HasClosedBit(o.state) || Closing(pc))
            && (Closing(after.1) ==> Closing(pc) || (pc.Idle? && choice.Close?))
            && (pc.Idle? && choice.Close? ==> Closing(after.1))
  {
  }

  /** A step starts or continues a close exactly if one is under way afterwards. */
  lemma StepClosing(w: World, turn: Turn)
    requires Inv(w)
    ensures CloseUnderWay(Step(w, turn)) <==> (CloseUnderWay(w) ||
            (turn.goroutine < |w.pcs| && w.pcs[turn.goroutine].Idle? && turn.choice.Close?))
  {
    var i := turn.goroutine;
    if i < |w.pcs| {
      assert PcOk(w.pcs[i]);
      CountReplace(w.pcs, i, Idle, Borrowing);
      CloseStep(w.owner, w.pcs[i], turn.choice, Count(w.pcs, Borrowing), Count(w.pcs, Entering), Count(w.pcs, Freeing));
      var w' := Step(w, turn);
      assert w'.pcs[i] == StepOne(w.owner, w.pcs[i], turn.choice).1;
      if j :| 0 <= j < |w.pcs| && Closing(w.pcs[j]) {
        assert j != i ==> Closing(w'.pcs[j]);
      }
      if j :| 0 <= j < |w'.pcs| && Closing(w'.pcs[j]) {
        assert j != i ==> Closing(w.pcs[j]);
      }
    }
  }

  lemma CloseStartedLast(n: nat, schedule: seq<Turn>)
    requires schedule != []
    ensures var m := |schedule| - 1;
            CloseStarted(n, schedule) <==> CloseStarted(n, schedule[..m]) || StartsClose(n, schedule, m)
  {
    var m := |schedule| - 1;
    forall k | 0 <= k < m ensures StartsClose(n, schedule, k) <==> StartsClose(n, schedule[..m], k) {
      assert schedule[..m][..k] == schedule[..k];
    }
  }

  lemma {:induction false} CloseTracked(n: nat, schedule: seq<Turn>)
    ensures CloseStarted(n, schedule) <==> CloseUnderWay(Run(Init(n), schedule))
  {
    if schedule != [] {
      var m := |schedule| - 1;
      CloseTracked(n, schedule[..m]);
      CloseStartedLast(n, schedule);
      RunKeepsInv(n, schedule[..m]);
      StepClosing(Run(Init(n), schedule[..m]), schedule[m]);
    }
  }

  /**
   When all goroutines have finished, no borrow is left, and the native release happened exactly
   once if some goroutine called `Close`, and not at all otherwise.
   */
  lemma ReleasedIffClosed(n: nat, schedule: seq<Turn>)
    requires forall i :: 0 <= i < |Run(Init(n), schedule).pcs| ==> Run(Init(n), schedule).pcs[i] == Idle
    ensures var o := Run(Init(n), schedule).owner;
            && Decode(o.state) == Lease(CloseStarted(n, schedule), 0)
            && o.nativeReleases == if CloseStarted(n, schedule) then 1 else 0
  {
    var w := Run(Init(n), schedule);
    RunKeepsInv(n, schedule);
    CloseTracked(n, schedule);
    forall r: Role ensures Count(w.pcs, r) == 0 {
      CountNone(w.pcs, r);
    }
  }

  // ---------------------------------------------------------------- every run can come to rest

  ghost predicate AllIdle(w: World) {
    forall i :: 0 <= i < |w.pcs| ==> w.pcs[i] == Idle
  }

  /** How many turns a goroutine at `pc` needs at most to finish, if it is left alone. */
  function Rank(o: OwnerState, pc: Pc): nat {
    match pc
    case Idle => 0
    case FreeNative => 1
    case EnterOnce => 2
    case ReleaseAdd => 3
    case InCallback => 4
    case AcquireSwap(seen) => if seen == o.state then 5 else 7
    case AcquireLoad => 6
    case CloseSwap(seen) => if seen == o.state then 3 else 5
    case CloseLoad => 4
  }

  lemma RankDecreases(o: OwnerState, pc: Pc)
    requires pc != Idle
    ensures var after := StepOne(o, pc, WithResource); Rank(after.0, after.1) < Rank(o, pc)
  {
  }

  /** `more` continues `schedule` without starting a `Close`. */
  ghost predicate Continues(schedule: seq<Turn>, more: seq<Turn>) {
    schedule <= more && forall k :: |schedule| <= k < |more| ==> more[k].choice.WithResource?
  }

  /** Finishing one goroutine; the others stay where they are. */
  lemma {:induction false} FinishOne(n: nat, schedule: seq<Turn>, i: nat) returns (more: seq<Turn>)
    requires i < |Run(Init(n), schedule).pcs|
    ensures Continues(schedule, more)
    ensures Run(Init(n), more).pcs == Run(Init(n), schedule).pcs[i := Idle]
    decreases Rank(Run(Init(n), schedule).owner, Run(Init(n), schedule).pcs[i])
  {
    var w := Run(Init(n), schedule);
    more := schedule;
    if w.pcs[i] != Idle {
      var next := schedule + [Turn(i, WithResource)];
      assert next[..|next| - 1] == schedule;
      RankDecreases(w.owner, w.pcs[i]);
      more := FinishOne(n, next, i);
    }
  }

  lemma {:induction false} FinishFrom(n: nat, schedule: seq<Turn>, i: nat) returns (more: seq<Turn>)
    requires i <= |Run(Init(n), schedule).pcs|
    requires forall j :: 0 <= j < i ==> Run(Init(n), schedule).pcs[j] == Idle
    ensures Continues(schedule, more) && AllIdle(Run(Init(n), more))
    decreases |Run(Init(n), schedule).pcs| - i
  {
    more := schedule;
    if i < |Run(Init(n), schedule).pcs| {
      var next := FinishOne(n, schedule, i);
      more := FinishFrom(n, next, i + 1);
    }
  }

  /** Turns that start no `Close` leave open whether one was started. */
  lemma {:induction false} NoCloseStarted(n: nat, schedule: seq<Turn>, more: seq<Turn>)
    requires Continues(schedule, more)
    ensures CloseStarted(n, more) <==> CloseStarted(n, schedule)
    decreases |more|
  {
    if |more| > |schedule| {
      var m := |more| - 1;
      NoCloseStarted(n, schedule, more[..m]);
      CloseStartedLast(n, more);
      assert more[m].choice.WithResource?;
    } else {
      assert more == schedule;
    }
  }

  /**
   So every run can be continued to rest without starting a `Close`, and then the native release
   has happened exactly once if a `Close` had been started, and not at all otherwise.
   */
  lemma ComesToRest(n: nat, schedule: seq<Turn>) returns (more: seq<Turn>)
    ensures Continues(schedule, more) && AllIdle(Run(Init(n), more))
    ensures Run(Init(n), more).owner.nativeReleases == if CloseStarted(n, schedule) then 1 else 0
  {
    more := FinishFrom(n, schedule, 0);
    NoCloseStarted(n, schedule, more);
    ReleasedIffClosed(n, more);
  }

  // ---------------------------------------------------------------- what a call does when it runs alone

  /** Goroutine `i` takes `k` more turns, and no other does. */
  function Alone(schedule: seq<Turn>, i: nat, k: nat): seq<Turn> {
    if k == 0 then schedule else Alone(schedule, i, k - 1) + [Turn(i, WithResource)]
  }

  /** The state after that. */
  function After(n: nat, schedule: seq<Turn>, i: nat, k: nat): (w: World)
    ensures |w.pcs| == n
  {
    Run(Init(n), Alone(schedule, i, k))
  }

  /** `k` steps of one goroutine. */
  function Solo(o: OwnerState, pc: Pc, k: nat): (OwnerState, Pc) {
    if k == 0 then (o, pc)
    else
      var before := Solo(o, pc, k - 1);
      StepOne(before.0, before.1, WithResource)
  }

  /** Nothing else changes while a goroutine runs alone. */
  lemma {:induction false} AfterIsSolo(n: nat, schedule: seq<Turn>, i: nat, k: nat)
    requires i < n
    ensures var w := Run(Init(n), schedule);
            var solo := Solo(w.owner, w.pcs[i], k);
            After(n, schedule, i, k) == World(solo.0, w.pcs[i := solo.1])
  {
    var w := Run(Init(n), schedule);
    if k == 0 {
      assert w.pcs[i := w.pcs[i]] == w.pcs;
    } else {
      AfterIsSolo(n, schedule, i, k - 1);
      var more := Alone(schedule, i, k);
      assert more[..|more| - 1] == Alone(schedule, i, k - 1);
      var before := Solo(w.owner, w.pcs[i], k - 1);
      var after := StepOne(before.0, before.1, WithResource);
      assert w.pcs[i := before.1][i := after.1] == w.pcs[i := after.1];
    }
  }

  lemma SoloAcquire(o: OwnerState, borrowing: nat, entering: nat, freeing: nat)
    requires Balanced(o, borrowing, entering, freeing)
    ensures !HasClosedBit(o.state) && borrowing + 1 < 0x8000_0000_0000_0000 ==>
              Solo(o, Idle, 1).1.AcquireLoad? && Solo(o, Idle, 2).1.AcquireSwap? && Solo(o, Idle, 3).1 == InCallback
    ensures HasClosedBit(o.state) || borrowing + 1 >= 0x8000_0000_0000_0000 ==>
              Solo(o, Idle, 1).1.AcquireLoad? && Solo(o, Idle, 2) == (o, Idle)
  {
    assert Solo(o, Idle, 1) == (o, AcquireLoad);
    var second := Solo(o, Idle, 2);
    assert second == (o, if Acquirable(o.state) then AcquireSwap(o.state) else Idle);
  }

  lemma SoloReturn(o: OwnerState, borrowing: nat, entering: nat, freeing: nat)
    requires Balanced(o, borrowing, entering, freeing) && borrowing > 0
    ensures Solo(o, InCallback, 2).1
            == if HasClosedBit(o.state) && borrowing == 1 then EnterOnce else Idle
  {
    assert Solo(o, InCallback, 1) == (o, ReleaseAdd);
  }

  ghost predicate NobodyClosing(w: World) {
    forall i :: 0 <= i < |w.pcs| ==> !Closing(w.pcs[i])
  }

  /** The borrows in flight after a goroutine has moved alone. */
  lemma BorrowsAfter(n: nat, schedule: seq<Turn>, i: nat, k: nat)
    requires i < n
    ensures Count(After(n, schedule, i, k).pcs, Borrowing) + Part(Run(Init(n), schedule).pcs[i], Borrowing)
            == Count(Run(Init(n), schedule).pcs, Borrowing) + Part(After(n, schedule, i, k).pcs[i], Borrowing)
  {
    var w := Run(Init(n), schedule);
    AfterIsSolo(n, schedule, i, k);
    CountReplace(w.pcs, i, Solo(w.owner, w.pcs[i], k).1, Borrowing);
  }

  /**
   In every reachable state, `WithResource` of an idle goroutine that runs alone enters the
   callback, with one more borrow, if no `Close` was started and fewer than 2^63 - 1 borrows are
   in flight, whatever the others are doing.
   */
  lemma BorrowGranted(n: nat, schedule: seq<Turn>, i: nat)
    requires i < n && Run(Init(n), schedule).pcs[i].Idle? && !CloseStarted(n, schedule)
    requires Count(Run(Init(n), schedule).pcs, Borrowing) + 1 < 0x8000_0000_0000_0000
    ensures !After(n, schedule, i, 1).pcs[i].Idle? && !After(n, schedule, i, 2).pcs[i].Idle?
    ensures After(n, schedule, i, 3).pcs == Run(Init(n), schedule).pcs[i := InCallback]
    ensures Count(After(n, schedule, i, 3).pcs, Borrowing) == Count(Run(Init(n), schedule).pcs, Borrowing) + 1
  {
    var w := Run(Init(n), schedule);
    RunKeepsInv(n, schedule);
    CloseTracked(n, schedule);
    SoloAcquire(w.owner, Count(w.pcs, Borrowing), Count(w.pcs, Entering), Count(w.pcs, Freeing));
    AfterIsSolo(n, schedule, i, 1);
    AfterIsSolo(n, schedule, i, 2);
    AfterIsSolo(n, schedule, i, 3);
    BorrowsAfter(n, schedule, i, 3);
  }

  /**
   And it is turned away, without a callback and without a trace, if every `Close` that was
   started has taken effect, and one was started, or if 2^63 - 1 borrows are in flight.
   */
  lemma BorrowRefused(n: nat, schedule: seq<Turn>, i: nat)
    requires i < n && Run(Init(n), schedule).pcs[i].Idle?
    requires || (CloseStarted(n, schedule) && NobodyClosing(Run(Init(n), schedule)))
             || Count(Run(Init(n), schedule).pcs, Borrowing) + 1 >= 0x8000_0000_0000_0000
    ensures !After(n, schedule, i, 1).pcs[i].InCallback? && After(n, schedule, i, 2) == Run(Init(n), schedule)
  {
    var w := Run(Init(n), schedule);
    RunKeepsInv(n, schedule);
    CloseTracked(n, schedule);
    SoloAcquire(w.owner, Count(w.pcs, Borrowing), Count(w.pcs, Entering), Count(w.pcs, Freeing));
    AfterIsSolo(n, schedule, i, 1);
    AfterIsSolo(n, schedule, i, 2);
    assert w.pcs[i := Idle] == w.pcs;
  }

  /**
   A callback that returns gives its borrow back; it goes on to the release exactly if it was the
   last one and a `Close` has taken effect.
   */
  lemma BorrowReturned(n: nat, schedule: seq<Turn>, i: nat)
    requires i < n && Run(Init(n), schedule).pcs[i].InCallback?
    ensures var w := Run(Init(n), schedule);
            && Count(After(n, schedule, i, 2).pcs, Borrowing) + 1 == Count(w.pcs, Borrowing)
            && After(n, schedule, i, 2).pcs[i]
               == if HasClosedBit(w.owner.state) && Count(w.pcs, Borrowing) == 1 then EnterOnce else Idle
  {
    var w := Run(Init(n), schedule);
    RunKeepsInv(n, schedule);
    CountReplace(w.pcs, i, Idle, Borrowing);
    SoloReturn(w.owner, Count(w.pcs, Borrowing), Count(w.pcs, Entering), Count(w.pcs, Freeing));
    AfterIsSolo(n, schedule, i, 2);
    BorrowsAfter(n, schedule, i, 2);
  }

  /** In no interleaving is a `WithResource` turned away for any other reason. */
  lemma TurnedAwayOnlyIf(n: nat, schedule: seq<Turn>, turn: Turn)
    requires turn.goroutine < n
    requires Run(Init(n), schedule).pcs[turn.goroutine].AcquireLoad?
             || Run(Init(n), schedule).pcs[turn.goroutine].AcquireSwap?
    requires Step(Run(Init(n), schedule), turn).pcs[turn.goroutine].Idle?
    ensures CloseStarted(n, schedule) || Count(Run(Init(n), schedule).pcs, Borrowing) + 1 >= 0x8000_0000_0000_0000
  {
    RunKeepsInv(n, schedule);
    CloseTracked(n, schedule);
  }
}
