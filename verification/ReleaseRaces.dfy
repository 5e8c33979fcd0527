/**
 Concurrent releases of semiring values in Go, .NET and C++.

 Each release validates its whole batch and then deletes the handles one by one, without a lock:
 Go's release bypasses the callback gate on purpose (callbacks.go), and the other two have none.
 Python holds a lock.  Any number of threads each release one batch; every check and every
 deletion is one step.  `broken` records a deletion of a handle that is gone: a panic in Go with
 the rest of the batch left undeleted, undefined in C++ and .NET.
 */
module ReleaseRaces {
  import opened Interop
  import opened TokenTable
  import opened HandleTokens

  datatype Pc = Checking(next: nat) | Deleting(next: nat) | Done

  /** Thread `i` releases batch `i` of the context with this key; values are behind handles. */
  datatype Releases = Releases(binding: Binding, key: nat, live: set<nat>, batches: seq<seq<Token>>)

  datatype World = World(live: set<nat>, pcs: seq<Pc>, broken: bool)

  function Init(r: Releases): World {
    World(r.live, seq(|r.batches|, i => Checking(0)), false)
  }

  /** The check of token `k`, which Go makes after a check of the length. */
  predicate Checks(r: Releases, live: set<nat>, batch: seq<Token>, k: nat)
    requires k < |batch|
  {
    && (r.binding.Go? ==> |batch| <= GO_RELEASE)
    && Passes(r.binding, false, r.key, live, batch[k])
    && forall j :: 0 <= j < k ==> batch[j].word0 != batch[k].word0
  }

  function StepOne(r: Releases, live: set<nat>, batch: seq<Token>, pc: Pc): (set<nat>, Pc, bool) {
    match pc
    case Checking(k) =>
      if k >= |batch| then (live, Deleting(0), false)
      else (live, if Checks(r, live, batch, k) then Checking(k + 1) else Done, false)
    case Deleting(k) =>
      if k >= |batch| then (live, Done, false)
      else if batch[k].word0 in live then (live - {batch[k].word0}, Deleting(k + 1), false)
      else (live, Done, true)
    case Done => (live, Done, false)
  }

  function Step(r: Releases, w: World, i: nat): World {
    if i < |w.pcs| && i < |r.batches| then
      var after := StepOne(r, w.live, r.batches[i], w.pcs[i]);
      World(after.0, w.pcs[i := after.1], w.broken || after.2)
    else w
  }

  /** The schedule says which thread moves next. */
  function Run(r: Releases, w: World, schedule: seq<nat>): World {
    if schedule == [] then w
    else Step(r, Run(r, w, schedule[..|schedule| - 1]), schedule[|schedule| - 1])
  }

  // ---------------------------------------------------------------- the condition

  /** Batch `i` would be accepted if it were released alone. */
  predicate Accepted(r: Releases, i: nat)
    requires i < |r.batches|
  {
    && (r.binding.Go? && r.batches[i] != [] ==> |r.batches[i]| <= GO_RELEASE)
    && BatchPasses(r.binding, false, r.key, r.live, r.batches[i])
  }

  /** And would delete live handles only. */
  ghost predicate AllLive(r: Releases) {
    forall i :: 0 <= i < |r.batches| && Accepted(r, i) ==> Ids(r.batches[i]) <= r.live
  }

  ghost predicate Apart(r: Releases, i: nat, j: nat)
    requires i < |r.batches| && j < |r.batches|
  {
    Accepted(r, i) && Accepted(r, j) && i != j ==> Ids(r.batches[i]) !! Ids(r.batches[j])
  }

  ghost predicate AllApart(r: Releases) {
    forall i, j :: 0 <= i < |r.batches| && 0 <= j < |r.batches| ==> Apart(r, i, j)
  }

  // ---------------------------------------------------------------- disjoint batches are safe

  /** The first `k` tokens have passed their checks. */
  ghost predicate Checked(r: Releases, batch: seq<Token>, k: nat) {
    k <= |batch| && forall j :: 0 <= j < k ==> Checks(r, r.live, batch, j)
  }

  /** What an accepted batch needs to be still there. */
  ghost predicate PcOk(r: Releases, live: set<nat>, i: nat, pc: Pc)
    requires i < |r.batches|
  {
    var batch := r.batches[i];
    match pc
    case Checking(k) => Checked(r, batch, k) && (Accepted(r, i) ==> Ids(batch) <= live)
    case Deleting(k) => Accepted(r, i) && k <= |batch| && Ids(batch[k..]) <= live
    case Done => true
  }

  ghost predicate Inv(r: Releases, w: World) {
    && !w.broken && w.live <= r.live && |w.pcs| == |r.batches|
    && forall i :: 0 <= i < |w.pcs| ==> PcOk(r, w.live, i, w.pcs[i])
  }

  lemma CheckedAll(r: Releases, i: nat)
    requires i < |r.batches| && Checked(r, r.batches[i], |r.batches[i]|)
    ensures Accepted(r, i)
  {
    var batch := r.batches[i];
    forall k | 0 <= k < |batch| ensures Passes(r.binding, false, r.key, r.live, batch[k]) {
      assert Checks(r, r.live, batch, k);
    }
    forall j, k | 0 <= j < k < |batch| ensures batch[j].word0 != batch[k].word0 {
      assert Checks(r, r.live, batch, k);
    }
    if batch != [] {
      assert Checks(r, r.live, batch, 0);
    }
  }

  lemma IdsFrom(batch: seq<Token>, k: nat)
    requires k < |batch|
    ensures batch[k].word0 in Ids(batch) && Ids(batch[k..]) == {batch[k].word0} + Ids(batch[k + 1..])
    ensures Distinct(batch) ==> batch[k].word0 !in Ids(batch[k + 1..])
  {
    assert batch[k..] == [batch[k]] + batch[k + 1..];
  }

  lemma IdsSuffix(batch: seq<Token>, k: nat)
    requires k <= |batch|
    ensures Ids(batch[k..]) <= Ids(batch)
  {
  }

  /** The step of the moving thread: it only deletes what it has validated. */
  lemma MovingOk(r: Releases, live: set<nat>, i: nat, pc: Pc)
    requires i < |r.batches| && live <= r.live && PcOk(r, live, i, pc)
    ensures var after := StepOne(r, live, r.batches[i], pc);
            && !after.2 && after.0 <= live && PcOk(r, after.0, i, after.1)
            && live - after.0 <= Ids(r.batches[i]) && (after.0 != live ==> Accepted(r, i))
  {
    var batch := r.batches[i];
    match pc
    case Checking(k) =>
      if k == |batch| {
        CheckedAll(r, i);
        assert batch[0..] == batch;
      }
    case Deleting(k) =>
      if k < |batch| {
        IdsFrom(batch, k);
      }
    case Done =>
  }

  /** The other threads do not notice. */
  lemma OtherOk(r: Releases, live: set<nat>, live': set<nat>, i: nat, j: nat, pc: Pc)
    requires i < |r.batches| && j < |r.batches| && i != j && Apart(r, i, j)
    requires PcOk(r, live, j, pc) && live' <= live && live - live' <= Ids(r.batches[i])
    requires live' != live ==> Accepted(r, i)
    ensures PcOk(r, live', j, pc)
  {
    if pc.Deleting? {
      IdsSuffix(r.batches[j], pc.next);
    }
  }

  lemma StepKeepsInv(r: Releases, w: World, i: nat)
    requires AllApart(r) && Inv(r, w)
    ensures Inv(r, Step(r, w, i))
  {
    if i < |w.pcs| {
      var w' := Step(r, w, i);
      MovingOk(r, w.live, i, w.pcs[i]);
      forall j | 0 <= j < |w'.pcs| ensures PcOk(r, w'.live, j, w'.pcs[j]) {
        if j != i {
          assert Apart(r, i, j);
          OtherOk(r, w.live, w'.live, i, j, w.pcs[j]);
        }
      }
    }
  }

  lemma {:induction false} RunKeepsInv(r: Releases, schedule: seq<nat>)
    requires AllLive(r) && AllApart(r)
    ensures Inv(r, Run(r, Init(r), schedule))
  {
    if schedule != [] {
      RunKeepsInv(r, schedule[..|schedule| - 1]);
      StepKeepsInv(r, Run(r, Init(r), schedule[..|schedule| - 1]), schedule[|schedule| - 1]);
    }
  }

  // ---------------------------------------------------------------- other batches are not

  lemma {:induction false} RunAppend(r: Releases, w: World, first: seq<nat>, second: seq<nat>)
    ensures Run(r, w, first + second) == Run(r, Run(r, w, first), second)
    decreases |second|
  {
    var all := first + second;
    if second == [] {
      assert all == first;
    } else {
      assert all[..|all| - 1] == first + second[..|second| - 1];
      RunAppend(r, w, first, second[..|second| - 1]);
    }
  }

  lemma OneStep(r: Releases, w: World, i: nat)
    ensures Run(r, w, [i]) == Step(r, w, i)
  {
    assert [i][..0] == [];
  }

  /** An accepted batch passes its checks while all handles are live. */
  lemma {:induction false} CheckAll(r: Releases, w: World, i: nat, k: nat) returns (schedule: seq<nat>)
    requires i < |r.batches| == |w.pcs| && Accepted(r, i) && w.live == r.live
    requires k <= |r.batches[i]| && w.pcs[i] == Checking(k)
    ensures Run(r, w, schedule) == w.(pcs := w.pcs[i := Deleting(0)])
    decreases |r.batches[i]| - k
  {
    OneStep(r, w, i);
    if k == |r.batches[i]| {
      schedule := [i];
    } else {
      assert Passes(r.binding, false, r.key, r.live, r.batches[i][k]);
      var w' := Step(r, w, i);
      var rest := CheckAll(r, w', i, k + 1);
      RunAppend(r, w, [i], rest);
      schedule := [i] + rest;
      assert w'.pcs[i := Deleting(0)] == w.pcs[i := Deleting(0)];
    }
  }

  /** Then it deletes them, unless one is gone. */
  lemma {:induction false} DeleteRest(r: Releases, w: World, i: nat, k: nat) returns (schedule: seq<nat>)
    requires i < |r.batches| == |w.pcs|
    requires k <= |r.batches[i]| && w.pcs[i] == Deleting(k)
    ensures var w' := Run(r, w, schedule);
            || w'.broken
            || (Ids(r.batches[i][k..]) <= w.live
                && w' == World(w.live - Ids(r.batches[i][k..]), w.pcs[i := Done], w.broken))
    decreases |r.batches[i]| - k
  {
    OneStep(r, w, i);
    var batch := r.batches[i];
    if k == |batch| {
      schedule := [i];
      assert w.live - Ids(batch[k..]) == w.live;
    } else {
      var w' := Step(r, w, i);
      schedule := [i];
      IdsFrom(batch, k);
      if batch[k].word0 in w.live {
        var rest := DeleteRest(r, w', i, k + 1);
        RunAppend(r, w, [i], rest);
        schedule := [i] + rest;
        assert w'.pcs[i := Done] == w.pcs[i := Done];
        assert w'.live - Ids(batch[k + 1..]) == w.live - Ids(batch[k..]);
      }
    }
  }

  /** A thread alone deletes a dead token. */
  lemma DeadBreaks(r: Releases, i: nat) returns (schedule: seq<nat>)
    requires i < |r.batches| && Accepted(r, i) && !(Ids(r.batches[i]) <= r.live)
    ensures Run(r, Init(r), schedule).broken
  {
    var first := CheckAll(r, Init(r), i, 0);
    var w := Run(r, Init(r), first);
    var second := DeleteRest(r, w, i, 0);
    assert r.batches[i][0..] == r.batches[i];
    RunAppend(r, Init(r), first, second);
    schedule := first + second;
  }

  /** Two threads validate batches that share a handle, and then both delete it. */
  lemma SharedBreaks(r: Releases, i: nat, j: nat) returns (schedule: seq<nat>)
    requires i < |r.batches| && j < |r.batches| && !Apart(r, i, j)
    ensures Run(r, Init(r), schedule).broken
  {
    var w0 := Init(r);
    var a := CheckAll(r, w0, i, 0);
    var w1 := Run(r, w0, a);
    var b := CheckAll(r, w1, j, 0);
    var w2 := Run(r, w1, b);
    var c := DeleteRest(r, w2, i, 0);
    var w3 := Run(r, w2, c);
    RunAppend(r, w0, a, b);
    RunAppend(r, w0, a + b, c);
    schedule := a + b + c;
    assert r.batches[i][0..] == r.batches[i] && r.batches[j][0..] == r.batches[j];
    if !w3.broken {
      var d := DeleteRest(r, w3, j, 0);
      RunAppend(r, w0, schedule, d);
      schedule := schedule + d;
    }
  }

  /**
   No interleaving of concurrent releases deletes a handle that is gone, if and only if the
   batches that pass validation hold live tokens only and share none.
   */
  lemma RacesSafeIff(r: Releases)
    requires !r.binding.Python?
    ensures (forall schedule :: !Run(r, Init(r), schedule).broken) <==> AllLive(r) && AllApart(r)
  {
    if AllLive(r) && AllApart(r) {
      forall schedule ensures !Run(r, Init(r), schedule).broken {
        RunKeepsInv(r, schedule);
      }
    } else if !AllLive(r) {
      var i :| 0 <= i < |r.batches| && Accepted(r, i) && !(Ids(r.batches[i]) <= r.live);
      var schedule := DeadBreaks(r, i);
    } else {
      var i, j :| 0 <= i < |r.batches| && 0 <= j < |r.batches| && !Apart(r, i, j);
      var schedule := SharedBreaks(r, i, j);
    }
  }

  /** .NET and Go look every handle up, so for them the batches only have to be disjoint. */
  lemma LookupSafeIff(r: Releases)
    requires r.binding.Go? || r.binding.DotNet?
    ensures (forall schedule :: !Run(r, Init(r), schedule).broken) <==> AllApart(r)
  {
    RacesSafeIff(r);
    forall i | 0 <= i < |r.batches| && Accepted(r, i) ensures Ids(r.batches[i]) <= r.live {
      forall k | 0 <= k < |r.batches[i]| ensures r.batches[i][k].word0 in r.live {
        assert Passes(r.binding, false, r.key, r.live, r.batches[i][k]);
      }
    }
  }
}
