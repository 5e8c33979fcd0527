/**
 The token table of a Python semiring provider: `_SemiringHolder.own`, `value`, `values` and
 `release` (bindings/python/src/vinary_tree_interop/__init__.py).

 A token is a pair of words: an identifier from a counter that starts at one, and the key of
 the context that issued it.  `Ledger` adds to the state the history the table does not keep:
 every token ever issued, and every one released.
 */
module TokenTable {
  import opened Interop

  const ZERO := Token(0, 0)

  datatype Error = NullPointer | InvalidArgument | LimitExceeded | ValueError | OverflowError | ProviderError

  datatype Result<T> = Ok(value: T) | Err(error: Error)

  const BATCH: nat := 256

  /** `_tokens`, and the value the counter returns next. */
  datatype Table<V> = Table(tokens: map<nat, V>, next: nat)

  datatype Changed<V, R> = Changed(table: Table<V>, result: Result<R>)

  /** A token of this context that is live. */
  predicate Live<V>(t: Table<V>, key: nat, token: Token) {
    token.word1 == key && token.word0 in t.tokens
  }

  /** `own`: the counter advances even when the token space is exhausted. */
  function Own<V>(t: Table<V>, key: nat, value: Option<V>): Changed<V, Token> {
    if value.None? then Changed(t, Err(ValueError))
    else if t.next >= TWO_64 then Changed(t.(next := t.next + 1), Err(OverflowError))
    else Changed(Table(t.tokens[t.next := value.value], t.next + 1), Ok(Token(t.next, key)))
  }

  function Value<V>(t: Table<V>, key: nat, token: Option<Token>): Result<V> {
    if token.None? || token.value.word1 != key || token.value.word0 == 0 || token.value.word0 !in t.tokens
    then Err(InvalidArgument) else Ok(t.tokens[token.value.word0])
  }

  function Values<V>(t: Table<V>, key: nat, tokens: seq<Token>): Result<seq<V>> {
    if |tokens| > BATCH then Err(LimitExceeded)
    else if exists i :: 0 <= i < |tokens| && !Live(t, key, tokens[i]) then Err(InvalidArgument)
    else Ok(seq(|tokens|, i requires 0 <= i < |tokens| => t.tokens[tokens[i].word0]))
  }

  predicate Distinct(tokens: seq<Token>) {
    forall i, j :: 0 <= i < j < |tokens| ==> tokens[i].word0 != tokens[j].word0
  }

  predicate Releasable<V>(t: Table<V>, key: nat, tokens: seq<Token>) {
    |tokens| <= BATCH && Distinct(tokens) && forall i :: 0 <= i < |tokens| ==> Live(t, key, tokens[i])
  }

  function Ids(tokens: seq<Token>): set<nat> {
    set i | 0 <= i < |tokens| :: tokens[i].word0
  }

  /** `release`: all of the batch or nothing. */
  function Release<V>(t: Table<V>, key: nat, tokens: seq<Token>): Changed<V, ()> {
    if |tokens| > BATCH then Changed(t, Err(LimitExceeded))
    else if !Releasable(t, key, tokens) then Changed(t, Err(InvalidArgument))
    else Changed(t.(tokens := t.tokens - Ids(tokens)), Ok(()))
  }

  // ---------------------------------------------------------------- the class of the source

  class SemiringHolder<V> {
    const contextKey: nat
    var tokens: map<nat, V>
    var nextToken: nat

    function View(): Table<V>
      reads this
    {
      Table(tokens, nextToken)
    }

    constructor (contextKey: nat)
      ensures View() == Table(map[], 1) && this.contextKey == contextKey
    {
      this.contextKey := contextKey;
      tokens, nextToken := map[], 1;
    }

    method OwnValue(value: Option<V>) returns (r: Result<Token>)
      modifies this
      ensures Changed(View(), r) == Own(old(View()), contextKey, value)
    {
      if value.None? {
        return Err(ValueError);
      }
      var token := nextToken;
      nextToken := nextToken + 1;
      if token >= TWO_64 {
        return Err(OverflowError);
      }
      tokens := tokens[token := value.value];
      return Ok(Token(token, contextKey));
    }

    method ValueOf(token: Option<Token>) returns (r: Result<V>)
      ensures r == Value(View(), contextKey, token)
    {
      if token.None? || token.value.word1 != contextKey || token.value.word0 == 0 {
        return Err(InvalidArgument);
      }
      if token.value.word0 !in tokens {
        return Err(InvalidArgument);
      }
      return Ok(tokens[token.value.word0]);
    }

    /** A null pointer with a count of zero is the empty batch. */
    method ValuesOf(pointer: array?<Token>, count: nat) returns (r: Result<seq<V>>)
      requires pointer != null ==> count <= pointer.Length
      ensures count > 0 && pointer == null ==> r == Err(InvalidArgument)
      ensures count == 0 || pointer != null ==>
                r == Values(View(), contextKey, if pointer == null then [] else pointer[..count])
    {
      if count > 0 && pointer == null {
        return Err(InvalidArgument);
      }
      if count > BATCH {
        return Err(LimitExceeded);
      }
      var result: seq<V> := [];
      for index := 0 to count
        invariant |result| == index
        invariant forall k :: 0 <= k < index ==>
                    Live(View(), contextKey, pointer[k]) && result[k] == tokens[pointer[k].word0]
      {
        var token := pointer[index];
        if token.word1 != contextKey || token.word0 !in tokens {
          assert !Live(View(), contextKey, pointer[..count][index]);
          return Err(InvalidArgument);
        }
        result := result + [tokens[token.word0]];
      }
      ghost var batch := if pointer == null then [] else pointer[..count];
      assert forall k :: 0 <= k < |batch| ==> Live(View(), contextKey, batch[k]);
      assert result == Values(View(), contextKey, batch).value;
      return Ok(result);
    }

    /** The first loop of `release`: validate everything before anything changes. */
    method Validate(batch: seq<Token>) returns (ok: bool)
      requires |batch| <= BATCH
      ensures ok == Releasable(View(), contextKey, batch)
    {
      var distinct: set<nat> := {};
      for index := 0 to |batch|
        invariant distinct == Ids(batch[..index]) && Distinct(batch[..index])
        invariant forall k :: 0 <= k < index ==> Live(View(), contextKey, batch[k])
      {
        var token := batch[index];
        if token.word1 != contextKey || token.word0 !in tokens || token.word0 in distinct {
          if token.word0 in distinct {
            var k :| 0 <= k < index && batch[..index][k].word0 == token.word0;
            assert batch[k].word0 == batch[index].word0;
          }
          return false;
        }
        distinct := distinct + {token.word0};
        assert batch[..index + 1] == batch[..index] + [token];
      }
      assert batch[..|batch|] == batch;
      return true;
    }

    /** On success the caller's slots are zeroed; on failure neither table nor slots change. */
    method ReleaseBatch(pointer: array?<Token>, count: nat) returns (r: Result<()>)
      requires pointer != null ==> count <= pointer.Length
      modifies this`tokens, if pointer == null then {} else {pointer}
      ensures count > 0 && pointer == null ==> r == Err(InvalidArgument) && View() == old(View())
      ensures count == 0 || pointer != null ==>
                Changed(View(), r) ==
                Release(old(View()), contextKey, if pointer == null then [] else old(pointer[..count]))
      ensures pointer != null ==> forall k :: 0 <= k < pointer.Length ==>
                pointer[k] == if r.Ok? && k < count then ZERO else old(pointer[k])
    {
      if count > 0 && pointer == null {
        return Err(InvalidArgument);
      }
      if count > BATCH {
        return Err(LimitExceeded);
      }
      ghost var t := View();
      if pointer == null {
        assert t.tokens - Ids([]) == t.tokens;
        return Ok(());
      }
      var batch := pointer[..count];
      var ok := Validate(batch);
      if !ok {
        return Err(InvalidArgument);
      }
      for index := 0 to count
        invariant tokens == t.tokens - Ids(batch[..index])
        invariant forall k :: 0 <= k < pointer.Length ==> pointer[k] == if k < index then ZERO else old(pointer[k])
      {
        tokens := tokens - {batch[index].word0};
        pointer[index] := ZERO;
        assert batch[..index + 1] == batch[..index] + [batch[index]];
        assert Ids(batch[..index + 1]) == Ids(batch[..index]) + {batch[index].word0};
      }
      assert batch[..count] == batch;
      return Ok(());
    }
  }

  // ---------------------------------------------------------------- runs

  datatype Op<V> = OwnOp(value: Option<V>) | ValueOp(token: Option<Token>) | ValuesOp(tokens: seq<Token>)
                 | ReleaseOp(tokens: seq<Token>)

  /** The table together with its history. */
  datatype Ledger<V> = Ledger(table: Table<V>, issued: map<nat, V>, released: set<nat>)

  function Opened<V>(): Ledger<V> {
    Ledger(Table(map[], 1), map[], {})
  }

  function Do<V>(l: Ledger<V>, key: nat, op: Op<V>): Ledger<V> {
    match op
    case OwnOp(value) =>
      var c := Own(l.table, key, value);
      Ledger(c.table, if c.result.Ok? then l.issued[c.result.value.word0 := value.value] else l.issued, l.released)
    case ReleaseOp(tokens) =>
      var c := Release(l.table, key, tokens);
      Ledger(c.table, l.issued, if c.result.Ok? then l.released + Ids(tokens) else l.released)
    case _ => l
  }

  function Run<V>(l: Ledger<V>, key: nat, ops: seq<Op<V>>): Ledger<V> {
    if ops == [] then l else Do(Run(l, key, ops[..|ops| - 1]), key, ops[|ops| - 1])
  }

  /** Live is issued and not released, with the value it was issued for. */
  ghost predicate Inv<V>(l: Ledger<V>) {
    && l.table.next >= 1
    && (forall id :: id in l.issued ==> 1 <= id < l.table.next && id < TWO_64)
    && l.released <= l.issued.Keys
    && l.table.tokens == l.issued - l.released
  }

  lemma DoKeepsInv<V>(l: Ledger<V>, key: nat, op: Op<V>)
    requires Inv(l)
    ensures Inv(Do(l, key, op))
  {
    if op.ReleaseOp? && Releasable(l.table, key, op.tokens) {
      forall id | id in Ids(op.tokens) ensures id in l.issued {
        var i :| 0 <= i < |op.tokens| && op.tokens[i].word0 == id;
        assert Live(l.table, key, op.tokens[i]);
      }
    }
  }

  lemma {:induction false} RunKeepsInv<V>(l: Ledger<V>, key: nat, ops: seq<Op<V>>)
    requires Inv(l)
    ensures Inv(Run(l, key, ops))
  {
    if ops != [] {
      RunKeepsInv(l, key, ops[..|ops| - 1]);
      DoKeepsInv(Run(l, key, ops[..|ops| - 1]), key, ops[|ops| - 1]);
    }
  }

  // ---------------------------------------------------------------- theorems

  /** A token handed out now was never handed out before, and it is not zero. */
  lemma TokensNeverReused<V>(key: nat, ops: seq<Op<V>>, value: Option<V>)
    ensures var l := Run(Opened(), key, ops);
            var r := Own(l.table, key, value).result;
            r.Ok? ==> r.value.word0 !in l.issued && r.value.word1 == key && 0 < r.value.word0 < TWO_64
  {
    RunKeepsInv(Opened(), key, ops);
  }

  /** How many present values the operations offered to `own`. */
  function Offered<V>(ops: seq<Op<V>>): nat {
    if ops == [] then 0
    else
      var op := ops[|ops| - 1];
      Offered(ops[..|ops| - 1]) + if op.OwnOp? && op.value.Some? then 1 else 0
  }

  lemma {:induction false} NextCountsOffers<V>(key: nat, ops: seq<Op<V>>)
    ensures Run(Opened(), key, ops).table.next == Offered(ops) + 1
  {
    if ops != [] {
      NextCountsOffers(key, ops[..|ops| - 1]);
    }
  }

  /**
   Owning a value succeeds exactly while fewer than 2^64 - 1 values were offered before; the
   identifier is the number of the offer, and the token resolves to the value from then on.
   */
  lemma OwnSucceedsIff<V>(key: nat, ops: seq<Op<V>>, value: V)
    ensures var t := Run(Opened(), key, ops).table;
            var c := Own(t, key, Some(value));
            if Offered(ops) < 0xffff_ffff_ffff_ffff then
              && c.result == Ok(Token(Offered(ops) + 1, key))
              && c.table.tokens == t.tokens[Offered(ops) + 1 := value]
              && Value(c.table, key, Some(c.result.value)) == Ok(value)
            else c.result == Err(OverflowError) && c.table.tokens == t.tokens
  {
    NextCountsOffers(key, ops);
  }

  /** After any operations a token resolves exactly if it is live, to the value it was issued for. */
  lemma ResolvesToIssued<V>(key: nat, ops: seq<Op<V>>, token: Token)
    ensures var l := Run(Opened(), key, ops);
            Value(l.table, key, Some(token)) ==
            if token.word1 == key && token.word0 in l.issued && token.word0 !in l.released
            then Ok(l.issued[token.word0]) else Err(InvalidArgument)
  {
    RunKeepsInv(Opened(), key, ops);
  }

  /** Conservation: the live tokens are the issued ones minus the released ones. */
  lemma LiveIsIssuedMinusReleased<V>(key: nat, ops: seq<Op<V>>)
    ensures var l := Run(Opened(), key, ops);
            l.table.tokens == l.issued - l.released && |l.table.tokens| == |l.issued| - |l.released|
  {
    RunKeepsInv(Opened(), key, ops);
    var l := Run(Opened(), key, ops);
    DomainCount(l.issued);
    DomainCount(l.table.tokens);
    assert l.table.tokens.Keys == l.issued.Keys - l.released;
    assert l.issued.Keys == l.table.tokens.Keys + l.released;
  }

  lemma DomainCount<V>(m: map<nat, V>)
    ensures |m| == |m.Keys|
  {
  }

  lemma {:induction false} ReleasedStays<V>(l: Ledger<V>, key: nat, more: seq<Op<V>>)
    requires Inv(l)
    ensures l.released <= Run(l, key, more).released
  {
    if more != [] {
      ReleasedStays(l, key, more[..|more| - 1]);
    }
  }

  /** A released token never resolves again, whatever is issued later. */
  lemma ReleasedNeverResolves<V>(key: nat, ops: seq<Op<V>>, batch: seq<Token>, i: nat, more: seq<Op<V>>)
    requires i < |batch| && Releasable(Run(Opened<V>(), key, ops).table, key, batch)
    ensures var l := Run(Do(Run(Opened<V>(), key, ops), key, ReleaseOp(batch)), key, more);
            && Value(l.table, key, Some(batch[i])) == Err(InvalidArgument)
            && (forall tokens: seq<Token> :: batch[i] in tokens ==> Values(l.table, key, tokens).Err?)
  {
    var l := Run(Opened<V>(), key, ops);
    RunKeepsInv(Opened<V>(), key, ops);
    var l1 := Do(l, key, ReleaseOp(batch));
    DoKeepsInv(l, key, ReleaseOp(batch));
    RunKeepsInv(l1, key, more);
    ReleasedStays(l1, key, more);
    var l2 := Run(l1, key, more);
    assert batch[i].word0 in l2.released;
    forall tokens: seq<Token> | batch[i] in tokens ensures Values(l2.table, key, tokens).Err? {
      var k :| 0 <= k < |tokens| && tokens[k] == batch[i];
      assert !Live(l2.table, key, tokens[k]);
    }
  }

  /** Issued by this context and not released: what a token must be to be used. */
  predicate InUse<V>(l: Ledger<V>, key: nat, token: Token) {
    token.word1 == key && token.word0 in l.issued && token.word0 !in l.released
  }

  /** After any operations a batch resolves exactly if it is short and all of it is in use. */
  lemma BatchResolvesIff<V>(key: nat, ops: seq<Op<V>>, tokens: seq<Token>)
    ensures var l := Run(Opened<V>(), key, ops);
            var r := Values(l.table, key, tokens);
            && (r.Ok? <==> |tokens| <= 256 && forall i :: 0 <= i < |tokens| ==> InUse(l, key, tokens[i]))
            && (r.Ok? ==> |r.value| == |tokens| && forall i :: 0 <= i < |tokens| ==>
                  r.value[i] == l.issued[tokens[i].word0])
            && (r.Err? ==> r.error == if |tokens| > 256 then LimitExceeded else InvalidArgument)
  {
    RunKeepsInv(Opened<V>(), key, ops);
    var l := Run(Opened<V>(), key, ops);
    forall i | 0 <= i < |tokens| ensures Live(l.table, key, tokens[i]) <==> InUse(l, key, tokens[i]) {
    }
  }

  /**
   And it is released exactly if moreover no token occurs twice; then exactly its tokens are no
   longer in use, and otherwise nothing changes.
   */
  lemma BatchReleasesIff<V>(key: nat, ops: seq<Op<V>>, tokens: seq<Token>)
    ensures var l := Run(Opened<V>(), key, ops);
            var l', r := Do(l, key, ReleaseOp(tokens)), Release(l.table, key, tokens).result;
            && (r.Ok? <==>
                  && |tokens| <= 256 && (forall i :: 0 <= i < |tokens| ==> InUse(l, key, tokens[i]))
                  && forall i, j :: 0 <= i < j < |tokens| ==> tokens[i].word0 != tokens[j].word0)
            && (r.Err? ==> r.error == (if |tokens| > 256 then LimitExceeded else InvalidArgument) && l' == l)
            && (r.Ok? ==>
                  && l'.issued == l.issued
                  && forall token :: InUse(l', key, token) <==>
                       InUse(l, key, token) && forall i :: 0 <= i < |tokens| ==> tokens[i].word0 != token.word0)
  {
    RunKeepsInv(Opened<V>(), key, ops);
    var l := Run(Opened<V>(), key, ops);
    forall i | 0 <= i < |tokens| ensures Live(l.table, key, tokens[i]) <==> InUse(l, key, tokens[i]) {
    }
    forall id ensures id in Ids(tokens) <==> exists i :: 0 <= i < |tokens| && tokens[i].word0 == id {
    }
  }

  /** A release is rejected exactly for a long, foreign, stale or repeating batch, without effect. */
  lemma RejectedReleaseChangesNothing<V>(t: Table<V>, key: nat, tokens: seq<Token>)
    ensures Release(t, key, tokens).result.Err? <==> !Releasable(t, key, tokens)
    ensures Release(t, key, tokens).result.Err? ==> Release(t, key, tokens).table == t
    ensures Release(t, key, tokens).result.Ok? ==>
              |Release(t, key, tokens).table.tokens| == |t.tokens| - |tokens|
  {
    if Releasable(t, key, tokens) {
      IdCount(tokens);
      var rest := Release(t, key, tokens).table.tokens;
      DomainCount(t.tokens);
      DomainCount(rest);
      forall id | id in Ids(tokens) ensures id in t.tokens {
        var i :| 0 <= i < |tokens| && tokens[i].word0 == id;
        assert Live(t, key, tokens[i]);
      }
      assert t.tokens.Keys == rest.Keys + Ids(tokens) && rest.Keys !! Ids(tokens);
    }
  }

  lemma {:induction false} IdCount(tokens: seq<Token>)
    requires Distinct(tokens)
    ensures |Ids(tokens)| == |tokens|
  {
    if tokens != [] {
      var n := |tokens| - 1;
      IdCount(tokens[..n]);
      assert tokens[..n] + [tokens[n]] == tokens;
      assert Ids(tokens) == Ids(tokens[..n]) + {tokens[n].word0};
    }
  }
}
