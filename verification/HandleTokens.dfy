/**
 Semiring values of C++, .NET and Go providers: `semiring_context` (interop.hpp),
 `SemiringContext<T>` (SemiringProviders.cs) and `semiringHost` (bindings/go/semiring.go).

 A value lives behind a handle, or, if it is small, in the token itself (C++ and .NET).  .NET and
 Go look a handle up before they use it.  C++ does not: a handle is the address of a node, and a
 token passes if it carries the cookie of the context and is not zero.  So a token that was
 released before passes once more, and using its node is undefined.
 */
module HandleTokens {
  import opened Interop
  import opened TokenTable

  datatype Binding = Python | Go | Cpp | DotNet

  /** What a binding finds out about a token; `live` are the handles of the context, never zero. */
  predicate Passes(b: Binding, inlined: bool, key: nat, live: set<nat>, token: Token) {
    token.word1 == key && (inlined || (token.word0 != 0 && (b.Cpp? || token.word0 in live)))
  }

  /** An inline value may occur twice in a batch, as equal values have equal tokens. */
  predicate BatchPasses(b: Binding, inlined: bool, key: nat, live: set<nat>, tokens: seq<Token>) {
    && (forall k :: 0 <= k < |tokens| ==> Passes(b, inlined, key, live, tokens[k]))
    && (inlined || Distinct(tokens))
  }

  /** A token that passes in C++ although its node is gone. */
  predicate Dead(inlined: bool, key: nat, live: set<nat>, token: Token) {
    !inlined && token.word1 == key && token.word0 != 0 && token.word0 !in live
  }

  // ---------------------------------------------------------------- releasing a batch

  /** The handles that are live after deletions, unless one of them was not live. */
  datatype Heap = Undefined | Heap(live: set<nat>)

  function Delete(heap: Heap, handle: nat): Heap {
    if heap.Heap? && handle in heap.live then Heap(heap.live - {handle}) else Undefined
  }

  function DeleteAll(live: set<nat>, tokens: seq<Token>): Heap {
    if tokens == [] then Heap(live)
    else Delete(DeleteAll(live, tokens[..|tokens| - 1]), tokens[|tokens| - 1].word0)
  }

  /** Whether the batch was accepted, and the handles afterwards. */
  datatype Released = Released(ok: bool, heap: Heap)

  function ReleaseValues(b: Binding, inlined: bool, key: nat, live: set<nat>, tokens: seq<Token>): Released {
    if !BatchPasses(b, inlined, key, live, tokens) then Released(false, Heap(live))
    else Released(true, if inlined then Heap(live) else DeleteAll(live, tokens))
  }

  /**
   The first loop of `release_values` and `ReleaseValues`: every token is compared with all
   earlier ones, unless it holds its value itself.
   */
  method CheckHandles(b: Binding, values: array<Token>, count: nat, inlined: bool, key: nat, live: set<nat>)
    returns (ok: bool)
    requires count <= values.Length
    ensures ok <==> BatchPasses(b, inlined, key, live, values[..count])
  {
    ghost var batch := values[..count];
    for index := 0 to count
      invariant BatchPasses(b, inlined, key, live, batch[..index])
    {
      if !Passes(b, inlined, key, live, values[index]) {
        assert !Passes(b, inlined, key, live, batch[index]);
        return false;
      }
      if !inlined {
        for prior := 0 to index
          invariant forall k :: 0 <= k < prior ==> batch[k].word0 != batch[index].word0
        {
          if values[index].word0 == values[prior].word0 {
            return false;
          }
        }
      }
      assert batch[..index + 1] == batch[..index] + [batch[index]];
    }
    assert batch[..count] == batch;
    ok := true;
  }

  /**
   `release_values` and `ReleaseValues`: delete and zero one slot after the other.  Nothing is
   said about the slots once a deletion was undefined.
   */
  method ReleaseHandles(b: Binding, values: array<Token>, count: nat, inlined: bool, key: nat, live: set<nat>)
    returns (r: Released, freed: seq<nat>)
    requires count <= values.Length && (b.Cpp? || b.DotNet?)
    modifies values
    ensures r == ReleaseValues(b, inlined, key, live, old(values[..count]))
    ensures r.heap.Heap? ==>
              freed == if r.ok && !inlined
                       then seq(count, k requires 0 <= k < count => old(values[..count])[k].word0) else []
    ensures r.heap.Heap? ==>
              forall k :: 0 <= k < values.Length ==> values[k] == if r.ok && k < count then ZERO else old(values[k])
  {
    ghost var batch := values[..count];
    freed := [];
    var ok := CheckHandles(b, values, count, inlined, key, live);
    if !ok {
      return Released(false, Heap(live)), freed;
    }
    var heap := Heap(live);
    for index := 0 to count
      invariant heap == if inlined then Heap(live) else DeleteAll(live, batch[..index])
      invariant heap.Heap?
      invariant |freed| == (if inlined then 0 else index)
      invariant forall k :: 0 <= k < |freed| ==> freed[k] == batch[k].word0
      invariant forall k :: 0 <= k < values.Length ==> values[k] == if k < index then ZERO else old(values[k])
    {
      assert batch[..index + 1][..index] == batch[..index];
      if !inlined {
        heap := Delete(heap, values[index].word0);
        freed := freed + [values[index].word0];
        if heap.Undefined? {
          DeadStays(live, batch, index + 1);
          assert batch[..count] == batch;
          return Released(true, heap), freed;
        }
      }
      values[index] := ZERO;
    }
    assert batch[..count] == batch;
    return Released(true, heap), freed;
  }

  /** Nothing repairs an undefined deletion. */
  lemma {:induction false} DeadStays(live: set<nat>, tokens: seq<Token>, n: nat)
    requires n <= |tokens| && DeleteAll(live, tokens[..n]).Undefined?
    ensures DeleteAll(live, tokens).Undefined?
    decreases |tokens|
  {
    if n < |tokens| {
      assert tokens[..|tokens| - 1][..n] == tokens[..n];
      DeadStays(live, tokens[..|tokens| - 1], n);
    } else {
      assert tokens[..n] == tokens;
    }
  }

  lemma IdsAppend(tokens: seq<Token>)
    requires tokens != []
    ensures Ids(tokens) == Ids(tokens[..|tokens| - 1]) + {tokens[|tokens| - 1].word0}
  {
    var m := |tokens| - 1;
    assert tokens == tokens[..m] + [tokens[m]];
  }

  /** Deleting distinct handles is defined exactly if all of them are live. */
  lemma {:induction false} DeleteAllIff(live: set<nat>, tokens: seq<Token>)
    requires Distinct(tokens)
    ensures DeleteAll(live, tokens) == if Ids(tokens) <= live then Heap(live - Ids(tokens)) else Undefined
  {
    if tokens != [] {
      var m := |tokens| - 1;
      DeleteAllIff(live, tokens[..m]);
      IdsAppend(tokens);
      assert tokens[m].word0 !in Ids(tokens[..m]);
    } else {
      assert live - Ids(tokens) == live;
    }
  }

  /**
   A release is accepted exactly if every token carries the mark of the context and, unless values
   are inline, the handles are distinct, not zero, and, but for C++, live.
   */
  lemma AcceptedIff(b: Binding, inlined: bool, key: nat, live: set<nat>, tokens: seq<Token>)
    ensures ReleaseValues(b, inlined, key, live, tokens).ok <==>
            && (forall i :: 0 <= i < |tokens| ==> tokens[i].word1 == key)
            && (inlined ||
                (&& (forall i :: 0 <= i < |tokens| ==> tokens[i].word0 != 0 && (b == Cpp || tokens[i].word0 in live))
                 && (forall i, j :: 0 <= i < j < |tokens| ==> tokens[i].word0 != tokens[j].word0)))
  {
    forall i | 0 <= i < |tokens|
      ensures Passes(b, inlined, key, live, tokens[i]) <==>
              tokens[i].word1 == key
              && (inlined || (tokens[i].word0 != 0 && (b == Cpp || tokens[i].word0 in live)))
    {
    }
  }

  /** A repeated handle would be deleted twice: so it is the check for duplicates that prevents it. */
  lemma {:induction false} DuplicateIsUndefined(live: set<nat>, tokens: seq<Token>)
    requires !Distinct(tokens)
    ensures DeleteAll(live, tokens).Undefined?
  {
    var m := |tokens| - 1;
    if Distinct(tokens[..m]) {
      DeleteAllIff(live, tokens[..m]);
      var i, j :| 0 <= i < j < |tokens| && tokens[i].word0 == tokens[j].word0;
      assert tokens[..m][i].word0 in Ids(tokens[..m]);
    } else {
      DuplicateIsUndefined(live, tokens[..m]);
    }
  }

  /**
   A release frees every handle of an accepted batch exactly once if and only if no token of it is
   dead; otherwise a node is deleted a second time.  Only C++ can get there.
   */
  lemma ReleaseDefinedIff(b: Binding, inlined: bool, key: nat, live: set<nat>, tokens: seq<Token>)
    ensures var r := ReleaseValues(b, inlined, key, live, tokens);
            && (r.heap.Heap? <==> !r.ok || forall k :: 0 <= k < |tokens| ==> !Dead(inlined, key, live, tokens[k]))
            && (r.heap.Heap? && r.ok && !inlined ==>
                  Ids(tokens) <= live && r.heap.live == live - Ids(tokens) && |Ids(tokens)| == |tokens|)
            && (r.heap.Undefined? ==> b.Cpp?)
            && (!r.ok || inlined ==> r.heap == Heap(live))
  {
    if BatchPasses(b, inlined, key, live, tokens) && !inlined {
      DeleteAllIff(live, tokens);
      IdCount(tokens);
      forall k | 0 <= k < |tokens| ensures tokens[k].word0 in Ids(tokens) && Passes(b, inlined, key, live, tokens[k]) {
      }
    }
  }

  /**
   The input: tokens that were released once and are released again.  .NET and Go refuse them
   and change nothing; C++ accepts them and deletes a node that is gone.
   */
  lemma ReleasedAgain(b: Binding, key: nat, live: set<nat>, tokens: seq<Token>)
    requires tokens != [] && Ids(tokens) <= live && BatchPasses(b, false, key, live, tokens)
    ensures var first := ReleaseValues(b, false, key, live, tokens);
            && first == Released(true, Heap(live - Ids(tokens)))
            && ReleaseValues(b, false, key, first.heap.live, tokens)
               == if b.Cpp? then Released(true, Undefined) else Released(false, first.heap)
  {
    var rest := live - Ids(tokens);
    DeleteAllIff(live, tokens);
    DeleteAllIff(rest, tokens);
    assert Passes(b, false, key, live, tokens[0]) && tokens[0].word0 in Ids(tokens) && tokens[0].word0 !in rest;
    if b.Cpp? {
      forall k | 0 <= k < |tokens| ensures Passes(b, false, key, rest, tokens[k]) {
        assert Passes(b, false, key, live, tokens[k]);
      }
    }
  }

  /** In particular one token that a context issued, released twice. */
  lemma ReleasedTwice(key: nat, handle: nat)
    requires handle != 0
    ensures var token := Token(handle, key);
            && ReleaseValues(Cpp, false, key, {handle}, [token]) == Released(true, Heap({}))
            && ReleaseValues(Cpp, false, key, {}, [token]) == Released(true, Undefined)
            && ReleaseValues(DotNet, false, key, {}, [token]) == Released(false, Heap({}))
  {
    ReleasedAgain(Cpp, key, {handle}, [Token(handle, key)]);
    assert Ids([Token(handle, key)]) == {handle};
    assert {handle} - {handle} == {};
    assert !Passes(DotNet, false, key, {}, [Token(handle, key)][0]);
  }

  // ---------------------------------------------------------------- Go

  /** `cgo` handles: a handle refers to a token object of some context. */
  class HandleTable {
    var handles: map<nat, nat>

    constructor (handles: map<nat, nat>)
      ensures this.handles == handles
    {
      this.handles := handles;
    }

    /** Deleting a handle that is gone would panic. */
    method Delete(handle: nat)
      requires handle in handles
      modifies this
      ensures handles == old(handles) - {handle}
    {
      handles := handles - {handle};
    }

    /** `releaseTokens` of the Go binding: collect the handles first, then delete them. */
    method ReleaseTokens(tokens: seq<Token>, context: nat) returns (ok: bool)
      modifies this
      ensures ok <==>
                && |tokens| <= 65536
                && (forall i, j :: 0 <= i < j < |tokens| ==> tokens[i].word0 != tokens[j].word0)
                && forall k :: 0 <= k < |tokens| ==>
                     && tokens[k].word0 != 0 && tokens[k].word1 == context
                     && tokens[k].word0 in old(handles) && old(handles)[tokens[k].word0] == context
      ensures handles == if ok then old(handles) - Ids(tokens) else old(handles)
    {
      if |tokens| > GO_RELEASE {
        return false;
      }
      var seen: set<nat> := {};
      for index := 0 to |tokens|
        invariant seen == Ids(tokens[..index]) && Distinct(tokens[..index]) && handles == old(handles)
        invariant forall k :: 0 <= k < index ==> Resolves(handles, tokens[k], context)
      {
        var token := tokens[index];
        if token.word0 in seen {
          var k :| 0 <= k < index && tokens[..index][k].word0 == token.word0;
          assert tokens[k].word0 == tokens[index].word0;
          return false;
        }
        if !Resolves(handles, token, context) {
          return false;
        }
        seen := seen + {token.word0};
        assert tokens[..index + 1] == tokens[..index] + [token];
      }
      assert tokens[..|tokens|] == tokens;
      for index := 0 to |tokens|
        invariant handles == old(handles) - Ids(tokens[..index])
      {
        assert tokens[..index + 1] == tokens[..index] + [tokens[index]];
        assert Ids(tokens[..index + 1]) == Ids(tokens[..index]) + {tokens[index].word0};
        Delete(tokens[index].word0);
      }
      ok := true;
    }
  }

  const GO_RELEASE: nat := 65536

  /** `resolveToken` succeeds. */
  predicate Resolves(handles: map<nat, nat>, token: Token, context: nat) {
    token.word0 != 0 && token.word1 == context && token.word0 in handles && handles[token.word0] == context
  }
}
