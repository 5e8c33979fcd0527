/**
 Bulk addition and multiplication of semiring values: `_semiring_fold` of the Python binding,
 `semiring_context::fold` (interop.hpp), `SemiringContext<T>.Fold` (SemiringProviders.cs) and
 `semiringHost.fold` (bindings/go/semiring.go).

 Python starts from the identity, the other three from the first operand.  Python and Go refuse
 more than 256 operands, C++ and .NET fold any number.  C++ does not find out whether the node of
 an operand is gone.  The four are separate methods, each proved against `FoldBatch`.
 */
module Folds {
  import opened Interop
  import opened TokenTable
  import opened HandleTokens

  /**
   An operation of the provider; `None` if it raises or returns an error.  `absent` tells the null
   value of the language (Python, Go, .NET): an operation may return it, and a fold hands it on to
   the next operation, but it cannot become the value of a token.
   */
  datatype Algebra<!V> = Algebra(op: (V, V) -> Option<V>, identity: Option<V>, absent: V -> bool)

  /** Accumulates from the left and stops at the first failure. */
  function FoldFrom<V>(a: Algebra<V>, accumulator: V, values: seq<V>): Option<V> {
    if values == [] then Some(accumulator)
    else
      match a.op(accumulator, values[0])
      case None => None
      case Some(next) => FoldFrom(a, next, values[1..])
  }

  function FromIdentity<V>(a: Algebra<V>, values: seq<V>): Option<V> {
    if a.identity.None? then None else FoldFrom(a, a.identity.value, values)
  }

  function FromFirst<V>(a: Algebra<V>, values: seq<V>): Option<V> {
    if values == [] then a.identity else FoldFrom(a, values[0], values[1..])
  }

  /** The accumulator loop of Python and Go, over `values` from position `start` on. */
  method Accumulate<V>(a: Algebra<V>, initial: V, values: seq<V>, start: nat) returns (r: Option<V>)
    requires start <= |values|
    ensures r == FoldFrom(a, initial, values[start..])
  {
    var accumulator := initial;
    for index := start to |values|
      invariant FoldFrom(a, initial, values[start..]) == FoldFrom(a, accumulator, values[index..])
    {
      var next := a.op(accumulator, values[index]);
      assert values[index..][0] == values[index] && values[index..][1..] == values[index + 1..];
      if next.None? {
        return None;
      }
      accumulator := next.value;
    }
    return Some(accumulator);
  }

  /** Python. */
  method FoldFromIdentity<V>(a: Algebra<V>, values: seq<V>) returns (r: Option<V>)
    ensures r == FromIdentity(a, values)
  {
    if a.identity.None? {
      return None;
    }
    r := Accumulate(a, a.identity.value, values, 0);
    assert values[0..] == values;
  }

  /** Go, which looks at the identity only when there is no operand. */
  method FoldFromFirst<V>(a: Algebra<V>, values: seq<V>) returns (r: Option<V>)
    ensures r == FromFirst(a, values)
  {
    if |values| == 0 {
      return a.identity;
    }
    r := Accumulate(a, values[0], values, 1);
  }

  predicate NeutralFor<V(==)>(a: Algebra<V>, v: V) {
    a.identity.Some? && a.op(a.identity.value, v) == Some(v)
  }

  /** On the left of every value a token can have. */
  ghost predicate LeftIdentity<V(!new)>(a: Algebra<V>) {
    forall v :: !a.absent(v) ==> NeutralFor(a, v)
  }

  predicate Present<V>(a: Algebra<V>, values: seq<V>) {
    forall i :: 0 <= i < |values| ==> !a.absent(values[i])
  }

  /** The two ways to fold agree on all lists of operands exactly for a left identity. */
  lemma FoldsAgreeIffLeftIdentity<V(!new)>(a: Algebra<V>)
    ensures (forall values :: Present(a, values) ==> FromIdentity(a, values) == FromFirst(a, values))
            <==> LeftIdentity(a)
  {
    if forall values :: Present(a, values) ==> FromIdentity(a, values) == FromFirst(a, values) {
      forall v | !a.absent(v) ensures NeutralFor(a, v) {
        assert Present(a, [v]);
        assert FromIdentity(a, [v]) == FromFirst(a, [v]);
        OneOperand(a, v);
      }
    }
    if LeftIdentity(a) {
      forall values | Present(a, values) ensures FromIdentity(a, values) == FromFirst(a, values) {
        if values != [] {
          assert NeutralFor(a, values[0]);
        }
      }
    }
  }

  /** The folds of one operand. */
  lemma OneOperand<V>(a: Algebra<V>, v: V)
    ensures FromFirst(a, [v]) == Some(v)
    ensures FromIdentity(a, [v]) == if a.identity.None? then None else a.op(a.identity.value, v)
  {
    assert [v][1..] == [];
    if a.identity.Some? && a.op(a.identity.value, v).Some? {
      assert FoldFrom(a, a.identity.value, [v]) == FoldFrom(a, a.op(a.identity.value, v).value, []);
    }
  }

  // ---------------------------------------------------------------- batches, in the four bindings

  /**
   What a token stands for: a value; a handle of this context that is gone; or nothing, for a
   token of another context or a zero one.
   */
  datatype Operand<V> = Resolved(value: V) | Gone | Foreign

  /**
   `TooMany` is `LIMIT_EXCEEDED`, `Rejected` an operand that does not pass (`INVALID_ARGUMENT`, or
   in Go `PROVIDER_ERROR` for a handle that was deleted), `Failed` an identity or operation that
   failed or a result that is absent, `ReadGone` a read of a node that is gone.
   */
  datatype Outcome<V> = TooMany | Rejected | Failed | ReadGone | Folded(value: V)

  predicate Limited(b: Binding) {
    b.Python? || b.Go?
  }

  /** Owning a result: C++ values are never null, so it has no such check. */
  function Conclude<V>(b: Binding, a: Algebra<V>, r: Option<V>): Outcome<V> {
    if r.None? || (!b.Cpp? && a.absent(r.value)) then Failed else Folded(r.value)
  }

  predicate AllResolve<V>(operands: seq<Operand<V>>) {
    forall i :: 0 <= i < |operands| ==> operands[i].Resolved?
  }

  predicate AnyForeign<V>(operands: seq<Operand<V>>) {
    exists i :: 0 <= i < |operands| && operands[i].Foreign?
  }

  function ValuesOf<V>(operands: seq<Operand<V>>): seq<V>
    requires AllResolve(operands)
  {
    seq(|operands|, i requires 0 <= i < |operands| => operands[i].value)
  }

  /** The accumulator loop of C++ and .NET, which read an operand when they come to it. */
  function ReadFrom<V>(b: Binding, a: Algebra<V>, accumulator: V, operands: seq<Operand<V>>): Outcome<V> {
    if operands == [] then Conclude(b, a, Some(accumulator))
    else if !operands[0].Resolved? then ReadGone
    else
      match a.op(accumulator, operands[0].value)
      case None => Failed
      case Some(next) => ReadFrom(b, a, next, operands[1..])
  }

  function ReadAll<V>(b: Binding, a: Algebra<V>, operands: seq<Operand<V>>): Outcome<V> {
    if operands == [] then Conclude(b, a, a.identity)
    else if !operands[0].Resolved? then ReadGone
    else ReadFrom(b, a, operands[0].value, operands[1..])
  }

  /** What a binding answers to a batch. */
  function FoldBatch<V>(b: Binding, a: Algebra<V>, operands: seq<Operand<V>>): Outcome<V> {
    if Limited(b) && |operands| > BATCH then TooMany
    else if AnyForeign(operands) || (!b.Cpp? && !AllResolve(operands)) then Rejected
    else if b.Python? then Conclude(b, a, FromIdentity(a, ValuesOf(operands)))
    else if b.Go? then Conclude(b, a, FromFirst(a, ValuesOf(operands)))
    else ReadAll(b, a, operands)
  }

  /** Reading operands as the loop comes to them is folding their values, if none is gone. */
  lemma {:induction false} ReadFromIsFold<V>(b: Binding, a: Algebra<V>, accumulator: V, operands: seq<Operand<V>>)
    requires AllResolve(operands)
    ensures ReadFrom(b, a, accumulator, operands) == Conclude(b, a, FoldFrom(a, accumulator, ValuesOf(operands)))
  {
    if operands != [] {
      assert ValuesOf(operands)[1..] == ValuesOf(operands[1..]);
      var next := a.op(accumulator, operands[0].value);
      if next.Some? {
        ReadFromIsFold(b, a, next.value, operands[1..]);
      }
    } else {
      assert ValuesOf(operands) == [];
    }
  }

  lemma ReadAllIsFold<V>(b: Binding, a: Algebra<V>, operands: seq<Operand<V>>)
    requires AllResolve(operands)
    ensures ReadAll(b, a, operands) == Conclude(b, a, FromFirst(a, ValuesOf(operands)))
  {
    if operands != [] {
      ReadFromIsFold(b, a, operands[0].value, operands[1..]);
      assert ValuesOf(operands)[1..] == ValuesOf(operands[1..]);
    }
  }

  /** One more operand is one more operation, on what the operands before it gave. */
  lemma {:induction false} FoldOneMore<V>(a: Algebra<V>, accumulator: V, values: seq<V>, v: V)
    ensures FoldFrom(a, accumulator, values + [v])
            == match FoldFrom(a, accumulator, values) case None => None case Some(r) => a.op(r, v)
  {
    if values == [] {
      assert values + [v] == [v] && [v][1..] == [];
      if a.op(accumulator, v).Some? {
        assert FoldFrom(a, accumulator, [v]) == FoldFrom(a, a.op(accumulator, v).value, []);
      }
    } else {
      assert (values + [v])[0] == values[0] && (values + [v])[1..] == values[1..] + [v];
      var next := a.op(accumulator, values[0]);
      if next.Some? {
        FoldOneMore(a, next.value, values[1..], v);
      }
    }
  }

  /** A batch is rejected exactly if it is not too long and some operand does not pass. */
  lemma RejectedIff<V>(b: Binding, a: Algebra<V>, operands: seq<Operand<V>>)
    ensures FoldBatch(b, a, operands) == Rejected <==>
            && ((b.Python? || b.Go?) ==> |operands| <= 256)
            && exists i :: 0 <= i < |operands| && (operands[i].Foreign? || (operands[i].Gone? && !b.Cpp?))
  {
    if b.Cpp? || b.DotNet? {
      if operands != [] && operands[0].Resolved? {
        NeverTooMany(b, a, operands[0].value, operands[1..]);
      }
    }
    if !AllResolve(operands) {
      var i :| 0 <= i < |operands| && !operands[i].Resolved?;
      assert operands[i].Foreign? || operands[i].Gone?;
    }
  }

  /**
   A batch that resolves yields its fold, from the identity in Python and from the first operand
   elsewhere, unless it is too long, an operation fails, or the result is null.
   */
  lemma OutcomeIff<V>(b: Binding, a: Algebra<V>, operands: seq<Operand<V>>)
    requires AllResolve(operands)
    ensures var values := ValuesOf(operands);
            var r := if b == Python then FromIdentity(a, values) else FromFirst(a, values);
            FoldBatch(b, a, operands) ==
            if b in {Python, Go} && |operands| > 256 then TooMany
            else if r.None? || (b in {Python, Go, DotNet} && a.absent(r.value)) then Failed
            else Folded(r.value)
  {
    if !Limited(b) {
      ReadAllIsFold(b, a, operands);
    }
  }

  /** A batch with an operand that is gone does not yield a value. */
  lemma {:induction false} GoneFrom<V>(b: Binding, a: Algebra<V>, accumulator: V, operands: seq<Operand<V>>)
    requires !AllResolve(operands)
    ensures var r := ReadFrom(b, a, accumulator, operands); r.ReadGone? || r.Failed?
  {
    if operands[0].Resolved? {
      var next := a.op(accumulator, operands[0].value);
      if next.Some? {
        GoneFrom(b, a, next.value, operands[1..]);
      }
    }
  }

  predicate Agree<V(==)>(b: Binding, b': Binding, a: Algebra<V>, operands: seq<Operand<V>>) {
    FoldBatch(b, a, operands) == FoldBatch(b', a, operands)
  }

  /** No operand is gone, or one is foreign, for which every binding rejects the batch. */
  predicate Sound<V>(operands: seq<Operand<V>>) {
    AllResolve(operands) || AnyForeign(operands)
  }

  /** Operands are values of tokens, so none is absent. */
  predicate Proper<V>(a: Algebra<V>, operands: seq<Operand<V>>) {
    forall i :: 0 <= i < |operands| && operands[i].Resolved? ==> !a.absent(operands[i].value)
  }

  /** The identity and the results of operations on token values are not absent. */
  ghost predicate Closed<V(!new)>(a: Algebra<V>) {
    && (a.identity.Some? ==> !a.absent(a.identity.value))
    && forall v, w :: !a.absent(v) && !a.absent(w) && a.op(v, w).Some? ==> !a.absent(a.op(v, w).value)
  }

  lemma {:induction false} ClosedFold<V(!new)>(a: Algebra<V>, accumulator: V, values: seq<V>)
    requires Closed(a) && !a.absent(accumulator) && Present(a, values)
    ensures var r := FoldFrom(a, accumulator, values); r.Some? ==> !a.absent(r.value)
  {
    if values != [] {
      var next := a.op(accumulator, values[0]);
      if next.Some? {
        ClosedFold(a, next.value, values[1..]);
      }
    }
  }

  /** The bindings start from the same place. */
  predicate StartAlike(b: Binding, b': Binding) {
    b.Python? <==> b'.Python?
  }

  /** What decides about two bindings on all batches within the limit in which nothing is gone. */
  ghost predicate Lawful<V(!new)>(b: Binding, b': Binding, a: Algebra<V>) {
    (StartAlike(b, b') || LeftIdentity(a)) && ((b.Cpp? <==> b'.Cpp?) || Closed(a))
  }

  /** What `FoldBatch` says of a batch that resolves. */
  lemma ResolvedBatch<V>(b: Binding, a: Algebra<V>, operands: seq<Operand<V>>)
    requires AllResolve(operands) && (Limited(b) ==> |operands| <= BATCH)
    ensures FoldBatch(b, a, operands)
            == Conclude(b, a, if b.Python? then FromIdentity(a, ValuesOf(operands))
                              else FromFirst(a, ValuesOf(operands)))
  {
    if !Limited(b) {
      ReadAllIsFold(b, a, operands);
    }
  }

  lemma LawfulAgree<V(!new)>(b: Binding, b': Binding, a: Algebra<V>, operands: seq<Operand<V>>)
    requires Lawful(b, b', a) && Proper(a, operands) && Sound(operands)
    requires |operands| <= BATCH || (Limited(b) <==> Limited(b'))
    ensures Agree(b, b', a, operands)
  {
    if AllResolve(operands) && !AnyForeign(operands) && (|operands| <= BATCH || !Limited(b)) {
      var values := ValuesOf(operands);
      ResolvedBatch(b, a, operands);
      ResolvedBatch(b', a, operands);
      if LeftIdentity(a) {
        FoldsAgreeIffLeftIdentity(a);
        assert Present(a, values) && FromIdentity(a, values) == FromFirst(a, values);
      }
      if Closed(a) && values != [] {
        ClosedFold(a, values[0], values[1..]);
      }
      if Closed(a) && a.identity.Some? {
        ClosedFold(a, a.identity.value, values);
      }
    }
  }

  /** The batch of the given values. */
  function Tokens<V>(values: seq<V>): (operands: seq<Operand<V>>)
    ensures AllResolve(operands) && ValuesOf(operands) == values
  {
    seq(|values|, i requires 0 <= i < |values| => Resolved(values[i]))
  }

  /** A single operand tells the starting points apart unless the identity is neutral for it. */
  lemma NeedsIdentity<V>(b: Binding, b': Binding, a: Algebra<V>, v: V)
    requires b.Python? && !b'.Python? && !a.absent(v) && Agree(b, b', a, Tokens([v]))
    ensures NeutralFor(a, v)
  {
    ResolvedBatch(b, a, Tokens([v]));
    ResolvedBatch(b', a, Tokens([v]));
    OneOperand(a, v);
  }

  lemma TwoOperands<V>(a: Algebra<V>, v: V, w: V)
    ensures FromFirst(a, [v, w]) == a.op(v, w)
  {
    assert [v, w][1..] == [w] && [w][1..] == [];
    if a.op(v, w).Some? {
      assert FoldFrom(a, v, [w]) == FoldFrom(a, a.op(v, w).value, []);
    }
  }

  /** Beyond the limit a binding that has one and a binding that has none never agree. */
  lemma LimitsDiffer<V>(b: Binding, b': Binding, a: Algebra<V>, operands: seq<Operand<V>>)
    requires Limited(b) && !Limited(b')
    ensures |operands| > BATCH ==> FoldBatch(b, a, operands) == TooMany && !Agree(b, b', a, operands)
    ensures AllResolve(operands) ==> FoldBatch(b', a, operands) == Conclude(b', a, FromFirst(a, ValuesOf(operands)))
  {
    if AllResolve(operands) {
      ReadAllIsFold(b', a, operands);
    }
    if operands != [] && operands[0].Resolved? {
      NeverTooMany(b', a, operands[0].value, operands[1..]);
    }
  }

  lemma {:induction false} NeverTooMany<V>(b: Binding, a: Algebra<V>, accumulator: V, operands: seq<Operand<V>>)
    ensures !ReadFrom(b, a, accumulator, operands).TooMany? && !ReadFrom(b, a, accumulator, operands).Rejected?
  {
    if operands != [] && operands[0].Resolved? {
      var next := a.op(accumulator, operands[0].value);
      if next.Some? {
        NeverTooMany(b, a, next.value, operands[1..]);
      }
    }
  }

  /** A batch in which a handle is gone and none is foreign: C++ does not reject it, the others do. */
  lemma GoneDiffers<V>(b: Binding, a: Algebra<V>, operands: seq<Operand<V>>)
    requires !b.Cpp? && !Sound(operands)
    ensures |operands| <= BATCH ==> FoldBatch(b, a, operands) == Rejected
    ensures FoldBatch(Cpp, a, operands).ReadGone? || FoldBatch(Cpp, a, operands).Failed?
    ensures operands[0].Gone? ==> FoldBatch(Cpp, a, operands).ReadGone?
  {
    if operands[0].Resolved? {
      GoneFrom(Cpp, a, operands[0].value, operands[1..]);
    }
  }

  /** Two operands, and none, tell whether a result is absent. */
  lemma NeedsClosed<V(!new)>(b: Binding, a: Algebra<V>, v: V, w: V)
    requires !b.Cpp? && (b.Python? ==> LeftIdentity(a)) && !a.absent(v) && !a.absent(w)
    requires Agree(Cpp, b, a, Tokens([v, w]))
    ensures a.op(v, w).Some? ==> !a.absent(a.op(v, w).value)
  {
    var batch := Tokens([v, w]);
    ResolvedBatch(Cpp, a, batch);
    ResolvedBatch(b, a, batch);
    TwoOperands(a, v, w);
    if b.Python? {
      FoldsAgreeIffLeftIdentity(a);
      assert Present(a, [v, w]) && FromIdentity(a, [v, w]) == FromFirst(a, [v, w]);
    }
  }

  lemma EmptyNeedsClosed<V>(b: Binding, a: Algebra<V>)
    requires !b.Cpp? && Agree(Cpp, b, a, [])
    ensures a.identity.Some? ==> !a.absent(a.identity.value)
  {
    var none: seq<Operand<V>> := [];
    ResolvedBatch(Cpp, a, none);
    ResolvedBatch(b, a, none);
    assert ValuesOf(none) == [];
  }

  /** The two bindings agree on every batch of at most 256 tokens in which nothing is gone. */
  ghost predicate AgreeWithin<V(!new)>(b: Binding, b': Binding, a: Algebra<V>) {
    forall operands :: Proper(a, operands) && Sound(operands) && |operands| <= BATCH ==> Agree(b, b', a, operands)
  }

  lemma WithinIsLawful<V(!new)>(b: Binding, b': Binding, a: Algebra<V>)
    requires AgreeWithin(b, b', a)
    ensures b.Python? && !b'.Python? ==> LeftIdentity(a)
    ensures b.Cpp? && !b'.Cpp? && (b'.Python? ==> LeftIdentity(a)) ==> Closed(a)
  {
    if b.Python? && !b'.Python? {
      forall v | !a.absent(v) ensures NeutralFor(a, v) {
        assert Agree(b, b', a, Tokens([v]));
        NeedsIdentity(b, b', a, v);
      }
    }
    if b.Cpp? && !b'.Cpp? && (b'.Python? ==> LeftIdentity(a)) {
      forall v, w | !a.absent(v) && !a.absent(w) && a.op(v, w).Some? ensures !a.absent(a.op(v, w).value) {
        assert Agree(b, b', a, Tokens([v, w]));
        NeedsClosed(b', a, v, w);
      }
      assert Agree(b, b', a, []);
      EmptyNeedsClosed(b', a);
    }
  }

  lemma AgreeSymmetric<V(!new)>(b: Binding, b': Binding, a: Algebra<V>)
    ensures AgreeWithin(b, b', a) ==> AgreeWithin(b', b, a)
  {
    if AgreeWithin(b, b', a) {
      forall operands | Proper(a, operands) && Sound(operands) && |operands| <= BATCH
        ensures Agree(b', b, a, operands)
      {
        assert Agree(b, b', a, operands);
      }
    }
  }

  /**
   Two bindings answer every batch of at most 256 tokens, none of them gone, alike exactly if they
   start from the same place or the identity is a left identity, and neither or both are C++ or
   no operation returns null.
   */
  lemma BindingsAgreeIff<V(!new)>(b: Binding, b': Binding, a: Algebra<V>)
    ensures AgreeWithin(b, b', a) <==> Lawful(b, b', a)
  {
    if AgreeWithin(b, b', a) {
      AgreeSymmetric(b, b', a);
      WithinIsLawful(b, b', a);
      WithinIsLawful(b', b, a);
    }
    if Lawful(b, b', a) {
      forall operands | Proper(a, operands) && Sound(operands) && |operands| <= BATCH
        ensures Agree(b, b', a, operands)
      {
        LawfulAgree(b, b', a, operands);
      }
    }
  }

  /** A batch of one handle that is gone, and one that is too long. */
  lemma Differences<V>(b: Binding, b': Binding, a: Algebra<V>)
    ensures b.Cpp? && !b'.Cpp? ==> !Agree(b, b', a, [Gone])
    ensures Limited(b) && !Limited(b') ==> !Agree(b, b', a, seq(BATCH + 1, i => Foreign))
  {
    var gone: seq<Operand<V>> := [Gone];
    assert gone[0].Gone?;
    if b.Cpp? && !b'.Cpp? {
      GoneDiffers(b', a, gone);
    }
    if Limited(b) && !Limited(b') {
      LimitsDiffer(b, b', a, seq(BATCH + 1, i => Foreign));
    }
  }

  /** And every batch whatsoever exactly if moreover they are the same in both respects. */
  lemma AlwaysAgreeIff<V(!new)>(b: Binding, b': Binding, a: Algebra<V>)
    ensures (forall operands :: Proper(a, operands) ==> Agree(b, b', a, operands))
            <==> Lawful(b, b', a) && (Limited(b) <==> Limited(b')) && (b.Cpp? <==> b'.Cpp?)
  {
    if forall operands :: Proper(a, operands) ==> Agree(b, b', a, operands) {
      BindingsAgreeIff(b, b', a);
      Differences(b, b', a);
      Differences(b', b, a);
      assert Agree(b, b', a, [Gone]) && Agree(b, b', a, seq(BATCH + 1, i => Foreign));
    }
    if Lawful(b, b', a) && (Limited(b) <==> Limited(b')) && (b.Cpp? <==> b'.Cpp?) {
      forall operands | Proper(a, operands) ensures Agree(b, b', a, operands) {
        if Sound(operands) {
          LawfulAgree(b, b', a, operands);
        }
      }
    }
  }

  /** All four agree on a batch. */
  ghost predicate AllAgree<V>(a: Algebra<V>, operands: seq<Operand<V>>) {
    forall b, b' :: Agree(b, b', a, operands)
  }

  /**
   If the identity is a left identity and no operation returns null, the four bindings agree on
   exactly the batches of at most 256 tokens of which none is gone, or some are foreign.
   */
  lemma FourAgreeIff<V(!new)>(a: Algebra<V>, operands: seq<Operand<V>>)
    requires LeftIdentity(a) && Closed(a) && Proper(a, operands)
    ensures AllAgree(a, operands) <==> |operands| <= BATCH && Sound(operands)
  {
    LimitsDiffer(Python, Cpp, a, operands);
    if |operands| <= BATCH && !Sound(operands) {
      GoneDiffers(Python, a, operands);
      assert !Agree(Python, Cpp, a, operands);
    }
    forall b: Binding, b': Binding | |operands| <= BATCH && Sound(operands) ensures Agree(b, b', a, operands) {
      LawfulAgree(b, b', a, operands);
    }
  }

  // ---------------------------------------------------------------- values behind handles, or inline

  /** Where C++, .NET and Go keep values. */
  datatype Store<!V> = Inline(encode: V -> nat, decode: nat -> V) | Handles(live: map<nat, V>)

  function LiveHandles<V>(store: Store<V>): set<nat> {
    if store.Inline? then {} else store.live.Keys
  }

  function Resolve<V>(store: Store<V>, key: nat, token: Token): Operand<V> {
    if token.word1 != key then Foreign
    else if store.Inline? then Resolved(store.decode(token.word0))
    else if token.word0 == 0 then Foreign
    else if token.word0 in store.live then Resolved(store.live[token.word0])
    else Gone
  }

  function Operands<V>(store: Store<V>, key: nat, tokens: seq<Token>): (operands: seq<Operand<V>>)
    ensures |operands| == |tokens|
  {
    seq(|tokens|, i requires 0 <= i < |tokens| => Resolve(store, key, tokens[i]))
  }

  /** What the check of a token finds out, in terms of the operand. */
  lemma PassesIff<V>(b: Binding, store: Store<V>, key: nat, token: Token)
    ensures var operand := Resolve(store, key, token);
            Passes(b, store.Inline?, key, LiveHandles(store), token)
            <==> operand.Resolved? || (operand.Gone? && b.Cpp?)
    ensures Resolve(store, key, token).Gone? <==> Dead(store.Inline?, key, LiveHandles(store), token)
  {
  }

  datatype Owned<!V> = Owned(store: Store<V>, token: Token, outcome: Outcome<V>)

  /** Storing a result: `handle` is the one an allocation would return. */
  function Put<V>(store: Store<V>, key: nat, handle: nat, outcome: Outcome<V>): Owned<V> {
    if !outcome.Folded? then Owned(store, ZERO, outcome)
    else if store.Inline? then Owned(store, Token(store.encode(outcome.value), key), outcome)
    else Owned(Handles(store.live[handle := outcome.value]), Token(handle, key), outcome)
  }

  function FoldStored<V>(b: Binding, store: Store<V>, key: nat, tokens: seq<Token>, handle: nat, a: Algebra<V>)
    : Owned<V>
  {
    Put(store, key, handle, FoldBatch(b, a, Operands(store, key, tokens)))
  }

  /** `semiringHost.fold`: every operand is resolved before the first operation is called. */
  method FoldGo<V>(live: map<nat, V>, key: nat, tokens: seq<Token>, handle: nat, a: Algebra<V>)
    returns (r: Owned<V>)
    ensures r == FoldStored(Go, Handles(live), key, tokens, handle, a)
  {
    var store := Handles(live);
    if |tokens| > BATCH {
      return Owned(store, ZERO, TooMany);
    }
    ghost var operands := Operands(store, key, tokens);
    var values: seq<V> := [];
    for index := 0 to |tokens|
      invariant |values| == index
      invariant forall k :: 0 <= k < index ==> operands[k] == Resolved(values[k])
    {
      var token := tokens[index];
      if token.word0 == 0 || token.word1 != key || token.word0 !in live {
        assert !operands[index].Resolved?;
        return Owned(store, ZERO, Rejected);
      }
      values := values + [live[token.word0]];
    }
    assert AllResolve(operands) && values == ValuesOf(operands);
    var result := FoldFromFirst(a, values);
    if result.None? || a.absent(result.value) {
      return Owned(store, ZERO, Failed);
    }
    return Owned(Handles(live[handle := result.value]), Token(handle, key), Folded(result.value));
  }

  /** The first loop of C++ and .NET. */
  method AllPass<V>(b: Binding, store: Store<V>, key: nat, tokens: seq<Token>) returns (ok: bool)
    requires b.Cpp? || b.DotNet?
    ensures var operands := Operands(store, key, tokens);
            ok <==> !AnyForeign(operands) && (b.Cpp? || AllResolve(operands))
  {
    ghost var operands := Operands(store, key, tokens);
    for index := 0 to |tokens|
      invariant forall k :: 0 <= k < index ==> operands[k].Resolved? || (operands[k].Gone? && b.Cpp?)
    {
      PassesIff(b, store, key, tokens[index]);
      if !Passes(b, store.Inline?, key, LiveHandles(store), tokens[index]) {
        assert operands[index].Foreign? || (operands[index].Gone? && !b.Cpp?);
        return false;
      }
    }
    return true;
  }

  /** The second loop of C++ and .NET, which decodes an operand when it comes to it. */
  method ReadOperands<V>(b: Binding, store: Store<V>, key: nat, tokens: seq<Token>, a: Algebra<V>)
    returns (r: Outcome<V>)
    ensures r == ReadAll(b, a, Operands(store, key, tokens))
  {
    ghost var operands := Operands(store, key, tokens);
    if |tokens| == 0 {
      return Conclude(b, a, a.identity);
    }
    var first := Resolve(store, key, tokens[0]);
    if !first.Resolved? {
      return ReadGone;
    }
    var accumulator := first.value;
    for index := 1 to |tokens|
      invariant ReadAll(b, a, operands) == ReadFrom(b, a, accumulator, operands[index..])
    {
      assert operands[index..][0] == operands[index] && operands[index..][1..] == operands[index + 1..];
      var next := Resolve(store, key, tokens[index]);
      if !next.Resolved? {
        return ReadGone;
      }
      var result := a.op(accumulator, next.value);
      if result.None? {
        return Failed;
      }
      accumulator := result.value;
    }
    assert operands[|tokens|..] == [];
    return Conclude(b, a, Some(accumulator));
  }

  /** `semiring_context::fold` and `SemiringContext<T>.Fold`; they differ in `Passes` and `Conclude`. */
  method FoldHandles<V>(b: Binding, store: Store<V>, key: nat, tokens: seq<Token>, handle: nat, a: Algebra<V>)
    returns (r: Owned<V>)
    requires b.Cpp? || b.DotNet?
    ensures r == FoldStored(b, store, key, tokens, handle, a)
  {
    var ok := AllPass(b, store, key, tokens);
    if !ok {
      return Owned(store, ZERO, Rejected);
    }
    var outcome := ReadOperands(b, store, key, tokens, a);
    r := Put(store, key, handle, outcome);
  }

  /**
   A fold that succeeds adds exactly one handle, the new one, holding the fold of the operands;
   every operand stays live with its value.  One that fails adds nothing, and neither does one
   over inline values, whose result decodes to the fold if encoding loses nothing.
   */
  lemma HandleFoldAddsOne<V>(b: Binding, store: Store<V>, key: nat, tokens: seq<Token>, handle: nat, a: Algebra<V>)
    requires !b.Python? && (store.Handles? ==> handle != 0 && handle !in store.live)
    ensures var r, operands := FoldStored(b, store, key, tokens, handle, a), Operands(store, key, tokens);
            && (r.outcome.Folded? && store.Handles? ==>
                  && r.store.live.Keys == store.live.Keys + {handle} && r.token == Token(handle, key)
                  && Resolve(r.store, key, r.token) == Resolved(r.outcome.value))
            && (r.outcome.Folded? && store.Inline? && store.decode(store.encode(r.outcome.value)) == r.outcome.value
                ==> Resolve(r.store, key, r.token) == Resolved(r.outcome.value))
            && (!r.outcome.Folded? || store.Inline? ==> r.store == store)
            && (r.outcome.Folded? ==>
                  && AllResolve(operands) && Some(r.outcome.value) == FromFirst(a, ValuesOf(operands))
                  && Operands(r.store, key, tokens) == operands)
  {
    var r, operands := FoldStored(b, store, key, tokens, handle, a), Operands(store, key, tokens);
    if r.outcome.Folded? {
      if !AllResolve(operands) && operands[0].Resolved? {
        GoneFrom(b, a, operands[0].value, operands[1..]);
      }
      assert AllResolve(operands);
      ResolvedBatch(b, a, operands);
      forall i | 0 <= i < |tokens| ensures Resolve(r.store, key, tokens[i]) == operands[i] {
        assert operands[i].Resolved?;
      }
    }
  }

  /**
   The input: a token whose value was released, given to a fold.  C++ reads a node that is gone;
   Python, Go and .NET reject it.
   */
  lemma GoneOperand<V>(b: Binding, key: nat, handle: nat, a: Algebra<V>)
    requires handle != 0
    ensures FoldBatch(b, a, Operands(Handles(map[]), key, [Token(handle, key)]))
            == if b.Cpp? then ReadGone else Rejected
  {
    var operands: seq<Operand<V>> := Operands(Handles(map[]), key, [Token(handle, key)]);
    assert operands == [Gone];
    assert !operands[0].Resolved?;
  }

  // ---------------------------------------------------------------- the Python fold

  /** Resolve every operand, fold, and own the result. */
  function FoldTokens<V>(t: Table<V>, key: nat, tokens: seq<Token>, a: Algebra<V>): Changed<V, Token> {
    match Values(t, key, tokens)
    case Err(e) => Changed(t, Err(e))
    case Ok(values) =>
      var result := FromIdentity(a, values);
      if result.None? then Changed(t, Err(ProviderError))
      else Own(t, key, if a.absent(result.value) then None else result)
  }

  /** `_semiring_fold`, for a provider without a bulk operation of its own. */
  method SemiringFold<V>(holder: SemiringHolder<V>, pointer: array?<Token>, count: nat, a: Algebra<V>)
    returns (r: Result<Token>)
    requires pointer != null ==> count <= pointer.Length
    modifies holder
    ensures count > 0 && pointer == null ==> r == Err(NullPointer) && holder.View() == old(holder.View())
    ensures count == 0 || pointer != null ==>
              Changed(holder.View(), r) ==
              FoldTokens(old(holder.View()), holder.contextKey,
                         if pointer == null then [] else old(pointer[..count]), a)
  {
    if count > 0 && pointer == null {
      return Err(NullPointer);
    }
    if count > BATCH {
      return Err(LimitExceeded);
    }
    var decoded := holder.ValuesOf(pointer, count);
    if decoded.Err? {
      return Err(decoded.error);
    }
    var result := FoldFromIdentity(a, decoded.value);
    if result.None? {
      return Err(ProviderError);
    }
    r := holder.OwnValue(if a.absent(result.value) then None else result);
  }

  /**
   A successful fold adds exactly one token, new and holding the fold of the operands' values,
   and consumes no operand; a failed one leaves the live tokens alone.
   */
  lemma FoldAddsOne<V>(key: nat, ops: seq<Op<V>>, tokens: seq<Token>, a: Algebra<V>)
    ensures var t := Run(Opened<V>(), key, ops).table;
            var c := FoldTokens(t, key, tokens, a);
            match c.result
            case Err(_) => c.table.tokens == t.tokens
            case Ok(token) =>
              && token.word0 !in t.tokens && c.table.tokens.Keys == t.tokens.Keys + {token.word0}
              && Some(c.table.tokens[token.word0]) == FromIdentity(a, Values(t, key, tokens).value)
              && (forall i :: 0 <= i < |tokens| ==>
                    && Live(c.table, key, tokens[i])
                    && c.table.tokens[tokens[i].word0] == t.tokens[tokens[i].word0])
  {
    RunKeepsInv(Opened<V>(), key, ops);
    var t := Run(Opened<V>(), key, ops).table;
    if FoldTokens(t, key, tokens, a).result.Ok? {
      forall i | 0 <= i < |tokens| ensures Live(t, key, tokens[i]) {
      }
    }
  }

  /**
   In every reachable state the Python fold answers as `FoldBatch` says, and owns its result as the
   next token unless 2^64 - 1 values have been offered.
   */
  lemma PythonFoldsBatch<V>(key: nat, ops: seq<Op<V>>, tokens: seq<Token>, a: Algebra<V>)
    ensures var t := Run(Opened<V>(), key, ops).table;
            var c := FoldTokens(t, key, tokens, a);
            match FoldBatch(Python, a, Operands(Handles(t.tokens), key, tokens))
            case TooMany => c == Changed(t, Err(LimitExceeded))
            case Rejected => c == Changed(t, Err(InvalidArgument))
            case Failed => c.table.tokens == t.tokens && c.result.Err?
            case ReadGone => false
            case Folded(value) =>
              if Offered(ops) < 0xffff_ffff_ffff_ffff
              then c.result == Ok(Token(Offered(ops) + 1, key))
                   && c.table.tokens == t.tokens[Offered(ops) + 1 := value]
              else c.result == Err(OverflowError) && c.table.tokens == t.tokens
  {
    RunKeepsInv(Opened<V>(), key, ops);
    NextCountsOffers(key, ops);
    var t := Run(Opened<V>(), key, ops).table;
    var operands := Operands(Handles(t.tokens), key, tokens);
    forall i | 0 <= i < |tokens|
      ensures operands[i].Resolved? <==> Live(t, key, tokens[i])
      ensures operands[i].Resolved? ==> operands[i].value == t.tokens[tokens[i].word0]
    {
    }
    if |tokens| <= BATCH && AllResolve(operands) {
      assert Values(t, key, tokens).Ok?;
      assert Values(t, key, tokens).value == ValuesOf(operands);
    }
  }
}
