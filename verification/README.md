# Ownership and data transfer across the Vinary Tree interop ABI, in Dafny

The repository is one C ABI for dictionaries, automata, lattices and semirings, with bindings in
many languages. Its hard part is not the ABI layout but the state machines on both sides of it:
who owns what, when it may be released, and how data is copied out of a provider that need not
be trusted. This project models six of them and proves what they are for.

Run `dafny verify dfyconfig.toml` in this directory to check everything.

## The parts

**Lock-free ownership.** `AtomicWord` is the machine word that packs a close bit and a borrow
count, with a proof that its arithmetic is the intended arithmetic on (closed, count).
`ResourceOwner` is the Go `resourceOwner`: a class with the retry loops of the code, and a
machine in which any number of goroutines take atomic steps in any order. `SemiringLifetime` is
the same for a semiring context, where many leases share one reference count;
`SemiringInvariant` and `SemiringSafety` hold the counting invariant and its preservation, and
`SemiringTheorems` what follows from it. `SemiringOperations` says what each operation holds, which
tokens its native call is given and when it gets that far, `SemiringClosing` which leases end up
closed, and `SemiringLedger` judges all native calls by their log alone. `SemiringBorrow` is the multi-operand borrow as one
goroutine runs it. `HostedResource` is the different retain/dispose design of hosted providers
in .NET and Go, `HostedTeardown` what it guarantees about the teardown, with the exact condition,
and `HostedCalls` what every single call does.

Concurrency is modelled by schedules: a step moves one goroutine by one atomic load,
compare-and-swap, add, exchange, native call or callback, and a theorem about
`Run(Init(n), schedule)` for all `n` and `schedule` is a theorem about all interleavings. The
window between winning a compare-and-swap and running the release it won is a pair of states.
Leases are kept in a map and not as objects there, so one step is one function on values. The
classes show the retry loops of the code; what other goroutines store in between is a parameter.

**Entries cursors.** `Keys` is the key order. `EntryBatch` is the validation and decoding of a
packed batch, proved to be the exact inverse of packing; a copy may run out of memory at any
entry. `EntryLog` is a provider as an arbitrary function of the history of native calls, with the
list of entries such a history delivers and the discipline a consumer keeps towards it.
`EntryIterator` (JVM) and `EntryEnumerator` (.NET) are the two consumers, each as a class with
the fields of the source. `EntryFixture` is the only concrete cursor of the repository, for any
list of entries, driven by the JVM iterator, and `EntryDelivery` a provider that serves a list in
batches of any sizes. `Snapshot` is the binary search and the set relations
on a materialised snapshot.

**Token tables and folds.** `TokenTable` is the Python table of owned semiring values,
`HandleTokens` the values behind handles, or inline, of C++, .NET and Go, with the nodes that C++
deletes. `ReleaseRaces` runs any number of concurrent releases of such values. `Folds` has the four
separately written folds, as loops and as operations on batches of tokens.

**Arc paging.** `ArcPaging` has the four slicers and the two reassembly loops.

**Two-phase byte reads.** `StableBytes` has the retrying readers and the exact reader of Go, against
a provider that answers any status, counts and bytes, and the partial writers of C++ and .NET, the
limited one of Python and the all-or-nothing writer of Go, of an encoding that changes between
calls.

**Bounded arithmetic.** `Cookies` is the derivation of .NET context cookies, and what a context makes
of the tokens of others, `LuaU64` the decimal parse and print of unsigned 64-bit integers in Lua.

`Interop` holds the few declarations of the ABI that several modules share.

## Where the code falls short of a law

These laws hold only under a condition. The code is modelled as it is, and the condition is proved.

* An ABI retain of a hosted provider that overflows the count, at 2^31 - 1 in .NET and 2^63 - 1 in
  Go, fails inside a callback that cannot report it: .NET catches the exception, Go recovers the
  panic, and `vt_go_retain_resource` hands the resource out as owned. A run whose count stays below
  the limit is safe (`HostedTeardown.TeardownIsSafe`); a retain is swallowed exactly when one acts on
  a full count (`SwallowedExactlyAtLimit`); after that some continuation always tears down under an
  owner (`SwallowedIsDoomed`), and at rest the releases alone are safe exactly if nothing was
  swallowed (`ReleasesAreSafeIff`). The limit can be reached in either binding
  (`SwallowedRetainIsUnsafe`).
* A .NET enumerator that rejects a batch keeps the entries it had already queued. If the cursor
  cannot be closed in two attempts, the next `MoveNext` returns one of them
  (`EntryEnumerator.RejectedVisible` gives the exact condition, `AtomicityFails` a provider). The
  JVM iterator empties its queue and has the law for every provider.
* After a `MoveNext` that threw, a .NET enumerator may answer false although the end was not clean:
  with an advertised length of five and a provider that ends at once, the first call throws and the
  second answers false (`FalseAfterThrow`). `FalseIff` says exactly when false is answered, and
  `EndIsCleanIff` that the end was clean exactly if no call shows a fault of the provider.
* The JVM iterator catches only a `RuntimeException` around the copy of a leased batch. An
  `OutOfMemoryError` there skips the release, and the cursor is cancelled and closed with the lease
  open (`EntryIterator.LeaseCanBeAbandoned`). Every lease is settled by the next call exactly if
  no copy runs out of memory (`SettledIffEnoughMemory`). .NET catches every exception and settles.
* C++ does not look a handle up: a token passes if it carries the cookie of the context and is not
  zero. A token that was released before is accepted again and its node deleted a second time
  (`HandleTokens.ReleasedTwice`), or read by a fold (`Folds.GoneOperand`); .NET and Go refuse it. A
  release frees every handle of an accepted batch exactly once if and only if no token of it is dead
  (`HandleTokens.ReleaseDefinedIff`).
* A release validates its batch and then deletes the handles without a lock. No interleaving of
  concurrent releases deletes a handle that is gone if and only if the batches that pass hold live
  tokens only and share none (`ReleaseRaces.RacesSafeIff`); two that share one both pass.
* If the identity is a left identity and no operation returns null, the four folds agree on a batch
  exactly if it has at most 256 tokens and none of them is dead, or one is foreign
  (`Folds.FourAgreeIff`). Python and Go answer `LIMIT_EXCEEDED` to 257 operands, C++ and .NET fold
  them (`LimitsDiffer`). `BindingsAgreeIff` and `AlwaysAgreeIff` are the conditions for each pair of
  bindings and every algebra.
* The Python reassembly of arcs does not check the end of a page and may return more arcs than
  the provider reported; exactly when a page it asks for passes its total
  (`ArcPaging.PythonMayOvershoot`). Go refuses such pages, and Python refuses weights that are NaN;
  otherwise the two return the same arcs (`ConsumersAgreeIff`, `NumbersAgreeIff`).
* The arc slicers validate different things: Go all arcs of the state, the others those of the page,
  and only C++ can meet flags beyond one (`SlicersAgreeIff`, `RawAgreesIff`).
* The cookies of two .NET contexts of one value type can coincide, at exactly two distances modulo
  2^64, both above 2^59 (`Cookies.CookiesEqualIff`). Every value type has its own counter, so contexts
  of different types with the same number always share a cookie. A context accepts a token of
  another one exactly if their cookies are equal and it stores values inline, or the other does and
  the value spells one of its own handles (`Cookies.ForeignTokenIff`); the first context of a
  four-byte type and the first of an eight-byte type take each other's tokens
  (`FirstContextsCollide`).

The fixture cursor answers `BATCH_IN_USE` to a cancel while a lease is open, where
docs/abi-reference.md:812 promises `Ok`; the model follows the code. The .NET enumerator cannot
observe the difference, since it settles every lease first (`EntryEnumerator.NativeProtocol`), and
the JVM iterator only after it ran out of memory, when it accepts either answer
(`EntryIterator.DictionaryEntryIterator.CloseNative`).

## Model

| member | source | states |
|---|---|---|
| AtomicWord.WordArithmetic | bindings/go/resource.go:123-158 | the comparisons used for words are the mask of bit 63 and uint64 wrap-around |
| AtomicWord.PackingIsExact | bindings/go/resource.go:112-121 | words and pairs (closed, 63-bit count) correspond one to one |
| AtomicWord.OperationsRefine | bindings/go/resource.go:123-158 | masking, `+1`, `Add(^0)` and `\|` are borrow, return and close on (closed, count) |
| ResourceOwner.Owner.Acquire | bindings/go/resource.go:123-136 | despite interference the loop acts on one word: it increments an open, not full one, and refuses any other |
| ResourceOwner.Owner.ReleaseBorrow | bindings/go/resource.go:138-143 | returns one borrow; the last one of a closed owner releases |
| ResourceOwner.Owner.Close | bindings/go/resource.go:145-158 | closes one word of the history, releasing at once only if it was unborrowed and open |
| ResourceOwner.Owner.ReleaseNative | bindings/go/resource.go:160-162 | releases once however often it is entered |
| ResourceOwnerRuns.RunKeepsInv | bindings/go/resource.go:117-162 | the counting invariant holds after every schedule of any number of goroutines |
| ResourceOwnerRuns.WordCountsBorrows | bindings/go/resource.go:117-162 | the low 63 bits always equal the borrows in flight |
| ResourceOwnerRuns.ReleaseIsExclusive | bindings/go/resource.go:138-162 | at most one goroutine ever enters the native release, the once never suppresses it, and no borrow is active then or later |
| ResourceOwnerRuns.ReleasedIffClosed | bindings/go/resource.go:198-219 | when all goroutines are done the release happened exactly once if some goroutine called `Close`, else not |
| ResourceOwnerRuns.ComesToRest | bindings/go/resource.go:117-162 | every run can be continued until all goroutines are done without starting a `Close`, and then the release happened exactly once if one was started, else not |
| ResourceOwnerRuns.BorrowGranted | bindings/go/resource.go:123-136 | in every reachable state, a `WithResource` that runs alone enters its callback if no `Close` was started and fewer than 2^63 - 1 borrows are out |
| ResourceOwnerRuns.BorrowRefused | bindings/go/resource.go:123-136 | once every `Close` that was started has taken effect, or at that many borrows, it is turned away without a trace |
| ResourceOwnerRuns.BorrowReturned | bindings/go/resource.go:138-143 | a callback that returns gives one borrow back, and releases exactly if it was the last of a closed owner |
| ResourceOwnerRuns.TurnedAwayOnlyIf | bindings/go/resource.go:123-136 | in no interleaving is a `WithResource` turned away unless a `Close` was started or the count is full |
| SemiringSafety.StepKeepsInv | bindings/go/semiring.go:313-387 | every atomic step keeps the invariant over leases, tokens and the core count |
| SemiringSafety.RunKeepsInv | bindings/go/semiring.go:313-387 | so it holds after every interleaving of close, clone, star, nullary, binary and many-operand operations |
| SemiringTheorems.NoIllegalNativeCall | bindings/go/semiring.go:489-601 | no call after the native release, no operation on a token that is released or was never issued, no token released twice or unissued, no release with a token outstanding, no underflow |
| SemiringTheorems.OperandsStayLive | bindings/go/semiring.go:575-601 | the token of a borrowed value stays issued and unreleased for as long as a goroutine holds the borrow |
| SemiringTheorems.WordCountsBorrows | bindings/go/semiring.go:319-350 | every lease word counts its borrows |
| SemiringTheorems.ReleaseComesLast | bindings/go/semiring.go:352-387 | the native release comes after every lease finished, with no borrow held and no native operation under way |
| SemiringTheorems.EveryTokenSpent | bindings/go/semiring.go:489-504 | by then every issued token has been released |
| SemiringTheorems.OnceNeverSuppresses | bindings/go/semiring.go:352-387 | whoever enters a `sync.Once` is the one that runs it |
| SemiringTheorems.RetainFailsOnlyWhenFull | bindings/go/semiring.go:364-377 | `retain` inside `value` fails exactly when 2^63 - 1 leases are live |
| SemiringTheorems.QuiescentOutcome | bindings/go/semiring.go:756-776 | when all goroutines are done no borrow is left, and a token is released exactly if its value was closed or never existed |
| SemiringTheorems.ReleasedIffAllClosed | bindings/go/semiring.go:445-471 | then the resource was released exactly once if the context and all values were closed, else not |
| SemiringTheorems.ComesToRest | bindings/go/semiring.go:313-387 | every run can be continued until all goroutines are done without starting anything, if native calls return, to a state with that outcome |
| SemiringOperations.HeldForOperation | bindings/go/semiring.go:556-601 | in every reachable state a goroutine about to call, calling, or with a result in hand holds exactly the leases of the operation it was started on |
| SemiringOperations.CallGetsItsOperands | bindings/go/semiring.go:575-601 | the native call is given exactly the tokens of the values the operation names, all issued and unreleased |
| SemiringOperations.OperandsOutlastCall | bindings/go/semiring.go:575-601 | none of them is released, nor the resource, while the call runs, in any interleaving |
| SemiringOperations.ReleasesAreLegal | bindings/go/semiring.go:352-387 | a token about to be released is issued and unreleased, and the resource is released when every token is |
| SemiringOperations.ReachesCallIff | bindings/go/semiring.go:556-573 | in every reachable state an operation that runs alone reaches its native call exactly if each lease it needs is open and has room for its occurrences |
| SemiringOperations.TurnedAwayOnlyIf | bindings/go/semiring.go:319-350 | in no interleaving is it turned away for another reason than a lease that is nil, closed or full |
| SemiringClosing.ClosedIffStarted | bindings/go/semiring.go:333-350 | when all goroutines are done, exactly the leases `Close` was called on are closed |
| SemiringClosing.ReleasedIffCloseCalled | bindings/go/semiring.go:445-471 | and a token is released exactly if `Close` was called on its value, the resource exactly if it was called on everything |
| SemiringClosing.TokenAdopted | bindings/go/semiring.go:489-504 | a token handed out becomes an open, unborrowed value, or is released if 2^63 - 1 leases are live |
| SemiringLedger.EveryCallIsLegal | bindings/go/semiring.go:489-601 | judged by the log of the native calls alone, every call of every run is one a provider may expect |
| SemiringLedger.CallsAreLogged | bindings/go/semiring.go:489-601 | and no call is missing from that log |
| SemiringBorrow.Leases.BorrowValues | bindings/go/semiring.go:556-573 | succeeds exactly if every operand can be borrowed as often as it occurs; an error restores every word |
| SemiringBorrow.Leases.ReleaseAll | bindings/go/semiring.go:556-573 | giving back in reverse order restores all words and finishes no lease |
| SemiringBorrow.GiveBackOne | bindings/go/semiring.go:556-573 | one return undoes the last borrow, even of a value that occurs twice |
| HostedResource.StepKeepsInv | bindings/dotnet/src/VinaryTree.Interop/HostResources.cs:119-143 | every atomic step keeps the balance of the count with the retains somebody owns, less those swallowed, or the audit has found a violation |
| HostedResource.RunKeepsInv | bindings/go/provider_core.go:86-117 | so does every schedule of any number of threads, in both bindings |
| HostedTeardown.UnswallowedIsSafe | bindings/dotnet/src/VinaryTree.Interop/HostResources.cs:65-92 | as long as no retain was swallowed: one teardown at most, never under an owner, handle freed after the native disposal and never used later |
| HostedTeardown.TeardownIsSafe | bindings/dotnet/src/VinaryTree.Interop/HostResources.cs:119-143 | a run that keeps the count below its limit swallows nothing and is safe |
| HostedTeardown.NoTeardownDuringCallback | bindings/dotnet/src/VinaryTree.Interop/HostResources.cs:65-79 | in every run, until a violation, nothing is torn down or being torn down while a callback runs |
| HostedTeardown.TornDownIffUnowned | bindings/go/provider_core.go:86-117 | when all threads are done without a violation the provider was disposed and its handle deleted exactly once if nobody owns a retain, else not |
| HostedTeardown.SwallowedExactlyAtLimit | bindings/go/callbacks.go:125-131 | in both bindings a step swallows a retain exactly if an ABI retain acts on a count it saw at the limit; a .NET snapshot reports the failure instead |
| HostedTeardown.SwallowedIsDoomed | bindings/dotnet/src/VinaryTree.Interop/HostResources.cs:181-188 | from every reachable state with a swallowed retain and a thread, some continuation tears down under an owner |
| HostedTeardown.ReleasesAreSafeIff | bindings/go/bridge.c:582-595 | at rest, no sequence of releases goes wrong exactly if nothing was swallowed |
| HostedTeardown.SwallowedRetainIsUnsafe | bindings/go/callbacks.go:125-131 | in either binding the limit can be reached, a retain swallowed, and the provider torn down under an owner |
| HostedCalls.CallbackRuns | bindings/dotnet/src/VinaryTree.Interop/HostResources.cs:65-79 | in every reachable state `WithResource` runs its callback under a retain below 2^31 - 1 retains, and throws without effect at that limit |
| HostedCalls.CallbackRefused | bindings/dotnet/src/VinaryTree.Interop/HostResources.cs:65-69 | once the wrapper was disposed it throws without effect |
| HostedCalls.RetainGranted | bindings/dotnet/src/VinaryTree.Interop/HostResources.cs:119-131 | foreign code that owns a retain gets another one below the limit; at it a .NET snapshot fails without effect, everything else is swallowed |
| HostedCalls.RetainInside | bindings/dotnet/src/VinaryTree.Interop/ScalarWfstProviders.cs:155-166 | the same inside a callback |
| HostedCalls.RetainRetried | bindings/dotnet/src/VinaryTree.Interop/HostResources.cs:119-131 | a lost compare-and-swap is tried again |
| HostedCalls.ReleaseGivesBack | bindings/go/provider_core.go:104-117 | a release gives back one retain, the last one tears down |
| HostedCalls.DisposeGivesBack | bindings/dotnet/src/VinaryTree.Interop/HostResources.cs:82-88 | so does `Dispose`, the first time |
| HostedCalls.CallbackGivesBack | bindings/dotnet/src/VinaryTree.Interop/HostResources.cs:75-78 | so does a callback that returns |
| Keys.CompareTo | bindings/jvm/src/main/java/io/vinarytree/interop/DictionaryKey.java:128-163 | the index loops compute the lexicographic comparison of the unsigned units |
| Keys.CompareDecidesOrder | bindings/jvm/src/main/java/io/vinarytree/interop/DictionaryKey.java:126-136 | the sign of `compareTo` is the documented order, zero exactly on equal keys |
| Keys.TotalOrder | bindings/dotnet/src/VinaryTree.Interop/DictionaryCollections.cs:199-222 | that order is a strict total order |
| Keys.PrefixFirst | bindings/dotnet/src/VinaryTree.Interop/DictionaryCollections.cs:213-222 | a key precedes its extensions |
| Keys.FirstDifferenceDecides | bindings/jvm/src/main/java/io/vinarytree/interop/DictionaryKey.java:137-163 | at the first difference the smaller unit decides, however long the keys are |
| Keys.AscendingPairs | bindings/jvm/src/main/java/io/vinarytree/interop/DictionaryEntryIterator.java:353-358 | comparing neighbours puts all pairs in order |
| EntryBatch.DecodeKey | bindings/jvm/src/main/java/io/vinarytree/interop/DictionaryEntryIterator.java:386-416 | a key is decoded exactly if its length and scalars are allowed |
| EntryBatch.CopyEntries | bindings/dotnet/src/VinaryTree.Interop/DictionaryCollections.cs:467-497 | the descriptor loop queues exactly the entries before the first bad descriptor, or before memory runs out |
| EntryBatch.DecodeOneIff | bindings/jvm/src/main/java/io/vinarytree/interop/DictionaryEntryIterator.java:328-364 | one descriptor decodes to an entry exactly if the entry is admissible and packed at this position |
| EntryBatch.ScanSound | bindings/jvm/src/main/java/io/vinarytree/interop/DictionaryEntryIterator.java:326-367 | a completed loop found descriptors and arenas to be the packing of what it decoded |
| EntryBatch.ScanComplete | bindings/jvm/src/main/java/io/vinarytree/interop/DictionaryEntryIterator.java:326-367 | the packing of admissible entries is decoded completely, to those entries |
| EntryBatch.UnpackAfterPack | bindings/jvm/src/main/java/io/vinarytree/interop/DictionaryEntryIterator.java:291-373 | unpacking inverts packing |
| EntryBatch.PackAfterUnpack | bindings/dotnet/src/VinaryTree.Interop/DictionaryCollections.cs:442-507 | packing inverts unpacking on accepted batches |
| EntryBatch.PackedAcceptedIff | bindings/jvm/src/main/java/io/vinarytree/interop/DictionaryEntryIterator.java:291-373 | the packing of a list is accepted, as that list, exactly if every limit, word size, alignment, domain, order and length of the contract holds, each written out in numbers |
| EntryBatch.AcceptedIffPacking | bindings/dotnet/src/VinaryTree.Interop/DictionaryCollections.cs:442-507 | a batch is accepted exactly if it packs some list within that contract |
| EntryBatch.RuntimesAgree | bindings/dotnet/src/VinaryTree.Interop/DictionaryCollections.cs:442-507 | both bindings accept the same batches as the same entries, up to the signed words of the JVM |
| EntryLog.AcceptedAscending | bindings/jvm/src/main/java/io/vinarytree/interop/DictionaryEntryIterator.java:353-372 | across batches the keys ascend strictly and the advertised length is not passed |
| EntryLog.CopyReply | bindings/jvm/src/main/java/io/vinarytree/interop/DictionaryEntryIterator.java:291-373 | what a copy queues and counts, also when it fails, and whether it failed by an error |
| EntryLog.PackedReply | bindings/jvm/src/main/java/io/vinarytree/interop/DictionaryEntryIterator.java:326-373 | of a packing within the contract all entries are copied if there is memory for them, else exactly those there is memory for, with an error |
| EntryLog.SettledIffNothingEscapes | bindings/jvm/src/main/java/io/vinarytree/interop/DictionaryEntryIterator.java:275-288 | a consumer that settles leases unless an error escapes from a copy settles all of them exactly if none does |
| EntryIterator.ReturnedIsAccepted | bindings/jvm/src/main/java/io/vinarytree/interop/DictionaryEntryIterator.java:209-289 | for any provider and client, what was returned is the accepted batches in order, with ascending keys |
| EntryIterator.CleanEndIsExact | bindings/jvm/src/main/java/io/vinarytree/interop/DictionaryEntryIterator.java:418-423 | a run ending without failure or early close returned exactly the advertised number |
| EntryIterator.CleanEndIsClosed | bindings/jvm/src/main/java/io/vinarytree/interop/DictionaryEntryIterator.java:261-268 | such a run has closed the cursor |
| EntryIterator.Materialize | bindings/jvm/src/main/java/io/vinarytree/interop/DictionarySnapshot.java:21-37 | for any provider a snapshot is returned exactly if the advertised length fits an array and no reply shows a fault; it holds the accepted entries in ascending order and the advertised number, and the cursor is closed |
| EntryIterator.NativeProtocol | bindings/jvm/src/main/java/io/vinarytree/interop/DictionaryEntryIterator.java:275-288 | every lease is settled by the next call with its generation, unless an error escapes from the copy; none is open between client calls, nothing follows a successful close |
| EntryIterator.SettledIffEnoughMemory | bindings/jvm/src/main/java/io/vinarytree/interop/DictionaryEntryIterator.java:276-288 | every lease is settled by the next call exactly if no copy runs out of memory |
| EntryIterator.LeaseCanBeAbandoned | bindings/jvm/src/main/java/io/vinarytree/interop/DictionaryEntryIterator.java:211-225 | a provider with which the cursor is cancelled and closed under an open lease |
| EntryIterator.BatchAtomicity | bindings/jvm/src/main/java/io/vinarytree/interop/DictionaryEntryIterator.java:425-435 | no entry of a rejected batch is ever returned and `hasNext` is false afterwards, even if closing fails |
| EntryIterator.FailureIsFinal | bindings/jvm/src/main/java/io/vinarytree/interop/DictionaryEntryIterator.java:214-226 | after a failure nothing more is returned |
| EntryIterator.FailedIffFault | bindings/jvm/src/main/java/io/vinarytree/interop/DictionaryEntryIterator.java:257-289 | for every provider and every client that does not close early, a call has failed exactly if the replies show a fault: a bad status, a bad end, a batch that cannot be copied, or a refused release or close |
| EntryIterator.EndIsReported | bindings/jvm/src/main/java/io/vinarytree/interop/DictionaryEntryIterator.java:261-268 | an iteration that ended without a failure ended where the provider reported the end |
| EntryIterator.HasNextDecides | bindings/jvm/src/main/java/io/vinarytree/interop/DictionaryEntryIterator.java:209-229 | and until then `hasNext` answers true |
| EntryIterator.CloseOutcome | bindings/jvm/src/main/java/io/vinarytree/interop/DictionaryEntryIterator.java:242-250 | which calls `close` makes in every reachable state, and exactly when it throws |
| EntryIterator.DictionaryEntryIterator.HasNext | bindings/jvm/src/main/java/io/vinarytree/interop/DictionaryEntryIterator.java:209-229 | the whole new state and failure of `hasNext`, call by call |
| EntryIterator.DictionaryEntryIterator.Next | bindings/jvm/src/main/java/io/vinarytree/interop/DictionaryEntryIterator.java:231-234 | returns and removes the first buffered entry, if `hasNext` |
| EntryIterator.DictionaryEntryIterator.RefillBatch | bindings/jvm/src/main/java/io/vinarytree/interop/DictionaryEntryIterator.java:257-289 | the whole new state and failure of `refill`, also when an error escapes from the copy |
| EntryIterator.DictionaryEntryIterator.TakeBatch | bindings/jvm/src/main/java/io/vinarytree/interop/DictionaryEntryIterator.java:275-288 | the whole new state of copying and releasing a leased batch, also when an error escapes |
| EntryIterator.DictionaryEntryIterator.Close | bindings/jvm/src/main/java/io/vinarytree/interop/DictionaryEntryIterator.java:242-250 | discards the buffer, cancels and closes, then cleans once |
| EntryIterator.DictionaryEntryIterator.CloseNative | bindings/jvm/src/main/java/io/vinarytree/interop/DictionaryEntryIterator.java:611-634 | closed exactly if the close call succeeds; a cancel may answer `OK` or `BATCH_IN_USE` |
| EntryIterator.DictionaryEntryIterator.CleanOnce | bindings/jvm/src/main/java/io/vinarytree/interop/DictionaryEntryIterator.java:641-653 | the cleaner closes an open cursor, at most once |
| EntryFixture.EntriesCursor.Next | bindings/raku/t/mock-resource.c:417-455 | serves one entry a batch, or the status for a closed, busy, exhausted or too small request |
| EntryFixture.EntriesCursor.Release | bindings/raku/t/mock-resource.c:457-468 | ends the lease of exactly the current generation |
| EntryFixture.EntriesCursor.CancelRest | bindings/raku/t/mock-resource.c:497-505 | exhausts the cursor unless a lease is open |
| EntryFixture.EntriesCursor.CloseHandle | bindings/raku/t/mock-resource.c:507-517 | closes the cursor once, unless a lease is open |
| EntryFixture.ServeAll | bindings/raku/t/mock-resource.c:417-517 | making the calls of any history on a new cursor gives the replies the theorems below are about |
| EntryFixture.EntryAccepted | bindings/raku/t/mock-resource.c:436-454 | the batch of the next fitting entry is accepted as that entry |
| EntryFixture.DeliversWhatFits | bindings/raku/t/mock-resource.c:417-517 | any client gets a prefix of the fitting entries, `BATCH_IN_USE` never occurs, and the run fails exactly at an entry beyond the limits, with `LIMIT_EXCEEDED` |
| EntryFixture.Drain | bindings/raku/t/mock-resource.c:417-455 | calling `next` to the end delivers every entry before the first that does not fit |
| EntryFixture.ClosedOnce | bindings/raku/t/mock-resource.c:507-517 | exactly one close succeeds, and it is the last call |
| EntryFixture.Snapshot | bindings/raku/t/mock-resource.c:417-517 | a snapshot of it is returned exactly if every entry fits the limits, and is then the list itself |
| EntryDelivery.NeverFails | bindings/jvm/src/main/java/io/vinarytree/interop/DictionaryEntryIterator.java:257-289 | if each batch is within the contract, no call of any client fails |
| EntryDelivery.EndDeliversAll | bindings/jvm/src/main/java/io/vinarytree/interop/DictionaryEntryIterator.java:209-229 | and a client that reaches the end has got every batch, in order |
| EntryDelivery.Snapshot | bindings/jvm/src/main/java/io/vinarytree/interop/DictionarySnapshot.java:21-37 | so any list served in batches of any sizes comes back from a snapshot exactly |
| EntryEnumerator.MoveNextOk | bindings/dotnet/src/VinaryTree.Interop/DictionaryCollections.cs:377-396 | without an exception, returned and queued entries are the accepted batches, and the end is exact |
| EntryEnumerator.ReturnedIsQueued | bindings/dotnet/src/VinaryTree.Interop/DictionaryCollections.cs:377-396 | in every run, also after exceptions, the entries returned are those queued from the leased batches in order, with ascending keys |
| EntryEnumerator.FalseIff | bindings/dotnet/src/VinaryTree.Interop/DictionaryCollections.cs:382-393 | in every reachable state false is answered exactly if the enumeration ended before, or ends here in order |
| EntryEnumerator.ThrewOnlyIfFault | bindings/dotnet/src/VinaryTree.Interop/DictionaryCollections.cs:377-396 | in a run not disposed early, a call has thrown only if the replies show a fault or the handle is damaged, and always if they show a fault |
| EntryEnumerator.EndIsCleanIff | bindings/dotnet/src/VinaryTree.Interop/DictionaryCollections.cs:413-420 | when false is answered and the client did not dispose early, no call threw exactly if the provider showed no fault; then the entries are the accepted ones, of the advertised number, and the cursor is closed |
| EntryEnumerator.FalseAfterThrow | bindings/dotnet/src/VinaryTree.Interop/DictionaryCollections.cs:413-420 | a provider with which false is answered after an exception, at an end that was not clean |
| EntryEnumerator.NativeProtocol | bindings/dotnet/src/VinaryTree.Interop/DictionaryCollections.cs:398-440 | leases are settled by the next call and nothing follows a successful close, also after exceptions |
| EntryEnumerator.RejectedVisible | bindings/dotnet/src/VinaryTree.Interop/DictionaryCollections.cs:428-440 | a rejected entry is returned next exactly if one was queued and both close attempts fail, by status or by a damaged handle |
| EntryEnumerator.AtomicityFails | bindings/dotnet/src/VinaryTree.Interop/DictionaryCollections.cs:572-577 | a provider for which it happens |
| EntryEnumerator.DictionaryEntryEnumerator.Advance | bindings/dotnet/src/VinaryTree.Interop/DictionaryCollections.cs:377-396 | the whole new state, result and exception of `MoveNext` |
| EntryEnumerator.DictionaryEntryEnumerator.RefillBatch | bindings/dotnet/src/VinaryTree.Interop/DictionaryCollections.cs:398-440 | the whole new state and exception of `Refill` |
| EntryEnumerator.DictionaryEntryEnumerator.TakeBatch | bindings/dotnet/src/VinaryTree.Interop/DictionaryCollections.cs:426-439 | the whole new state of copying a leased batch, which is released whatever the copy threw |
| EntryEnumerator.DictionaryEntryEnumerator.FinishBatches | bindings/dotnet/src/VinaryTree.Interop/DictionaryCollections.cs:413-420 | the whole new state at the end, with the exception for a batch that is not empty, a wrong length or a failed close |
| EntryEnumerator.DictionaryEntryEnumerator.CloseNative | bindings/dotnet/src/VinaryTree.Interop/DictionaryCollections.cs:551-570 | disposed exactly if the close call succeeds; any other cancel status than `Ok` is an error, and a damaged handle throws before any call |
| EntryEnumerator.DictionaryEntryEnumerator.DisposeCursor | bindings/dotnet/src/VinaryTree.Interop/DictionaryCollections.cs:545-549 | cancels first unless the enumeration ended |
| EntryEnumerator.DisposeOutcome | bindings/dotnet/src/VinaryTree.Interop/DictionaryCollections.cs:545-570 | which calls `Dispose` makes in every reachable state, and exactly when it throws |
| EntryEnumerator.FillSlots | bindings/dotnet/src/VinaryTree.Interop/DictionaryCollections.cs:745-751 | no write is out of bounds of the preallocated array, for any provider |
| EntryEnumerator.Materialize | bindings/dotnet/src/VinaryTree.Interop/DictionaryCollections.cs:738-756 | it returns normally exactly if the advertised length fits an array, no reply shows a fault and the last call closed the cursor; every slot is then filled with the accepted entries in ascending order, and the advertised length is met |
| Snapshot.Find | bindings/dotnet/src/VinaryTree.Interop/DictionaryCollections.cs:861-875 | the binary search is the linear search |
| Snapshot.LinearFindMeaning | bindings/jvm/src/main/java/io/vinarytree/interop/DictionarySnapshot.java:117-133 | which is the first position of the key, or none if it is absent |
| Snapshot.LookupIsMapLookup | bindings/dotnet/src/VinaryTree.Interop/DictionaryCollections.cs:807-845 | lookups by position are lookups in the map of the entries |
| Snapshot.KeySetCount | bindings/dotnet/src/VinaryTree.Interop/DictionaryCollections.cs:769-770 | `Count` is the number of distinct keys |
| Snapshot.SetEquals | bindings/dotnet/src/VinaryTree.Interop/DictionaryCollections.cs:793-797 | equality by counts is equality of sets, for arguments that may repeat keys |
| Snapshot.IsProperSubsetOf | bindings/dotnet/src/VinaryTree.Interop/DictionaryCollections.cs:772-776 | is the proper subset of sets |
| Snapshot.IsProperSupersetOf | bindings/dotnet/src/VinaryTree.Interop/DictionaryCollections.cs:778-782 | is the proper superset of sets |
| Snapshot.IsSubsetOf | bindings/dotnet/src/VinaryTree.Interop/DictionaryCollections.cs:784-788 | is the subset of sets |
| Snapshot.IsSupersetOf | bindings/dotnet/src/VinaryTree.Interop/DictionaryCollections.cs:790-790 | is the superset of sets |
| Snapshot.Overlaps | bindings/dotnet/src/VinaryTree.Interop/DictionaryCollections.cs:791-791 | is a common element |
| TokenTable.SemiringHolder.OwnValue | bindings/python/src/vinary_tree_interop/__init__.py:2574-2582 | issues the next identifier, unless the value is None or the 64-bit space is used up |
| TokenTable.SemiringHolder.ValueOf | bindings/python/src/vinary_tree_interop/__init__.py:2584-2596 | resolves live tokens of this context only |
| TokenTable.SemiringHolder.ValuesOf | bindings/python/src/vinary_tree_interop/__init__.py:2598-2616 | resolves a whole batch in order, or fails |
| TokenTable.SemiringHolder.Validate | bindings/python/src/vinary_tree_interop/__init__.py:2627-2642 | accepts exactly live, own and pairwise distinct tokens |
| TokenTable.SemiringHolder.ReleaseBatch | bindings/python/src/vinary_tree_interop/__init__.py:2618-2645 | removes exactly the batch and zeroes its slots, or changes neither table nor slots |
| TokenTable.TokensNeverReused | bindings/python/src/vinary_tree_interop/__init__.py:2574-2582 | after any operations a new token was never issued before |
| TokenTable.OwnSucceedsIff | bindings/python/src/vinary_tree_interop/__init__.py:2574-2582 | after any operations a present value is owned exactly if fewer than 2^64 - 1 were offered before; the identifier is that number plus one, and the token resolves to the value |
| TokenTable.ResolvesToIssued | bindings/python/src/vinary_tree_interop/__init__.py:2584-2596 | a token resolves exactly while it is issued and unreleased, to the value it was issued for |
| TokenTable.ReleasedNeverResolves | bindings/python/src/vinary_tree_interop/__init__.py:2618-2645 | a released token never resolves again |
| TokenTable.LiveIsIssuedMinusReleased | bindings/python/src/vinary_tree_interop/__init__.py:2574-2645 | live tokens are the issued minus the released, also by count |
| TokenTable.RejectedReleaseChangesNothing | bindings/python/src/vinary_tree_interop/__init__.py:2627-2645 | a release is rejected exactly for a long, foreign, stale or repeating batch, without effect; otherwise as many tokens go as were given |
| TokenTable.BatchResolvesIff | bindings/python/src/vinary_tree_interop/__init__.py:2598-2616 | after any operations a batch resolves exactly if it has at most 256 tokens, all issued here and unreleased, to the values they were issued for |
| TokenTable.BatchReleasesIff | bindings/python/src/vinary_tree_interop/__init__.py:2618-2645 | it is released exactly if moreover no token occurs twice; then exactly its tokens are out of use, otherwise nothing changes |
| HandleTokens.CheckHandles | include/vinary_tree/interop.hpp:1047-1058 | the quadratic check accepts exactly batches of distinct tokens that pass, or of inline ones; in C++ a dead token passes |
| HandleTokens.ReleaseHandles | include/vinary_tree/interop.hpp:1041-1066 | handles are deleted and zeroed one by one, inline values only zeroed, or nothing is touched; a deletion of a dead C++ node is undefined |
| HandleTokens.AcceptedIff | include/vinary_tree/interop.hpp:951-962 | a release is accepted exactly if all tokens carry the mark of the context and, unless inline, are distinct, not zero, and, but for C++, live |
| HandleTokens.DeleteAllIff | include/vinary_tree/interop.hpp:1059-1064 | deleting distinct handles is defined exactly if all are live, and leaves the others |
| HandleTokens.DuplicateIsUndefined | include/vinary_tree/interop.hpp:1051-1057 | a repeated handle would be deleted twice: what the quadratic check is for |
| HandleTokens.ReleaseDefinedIff | bindings/dotnet/src/VinaryTree.Interop/SemiringProviders.cs:308-333 | a release frees each handle of an accepted batch exactly once if and only if no token is dead; only C++ accepts a dead one |
| HandleTokens.ReleasedAgain | include/vinary_tree/interop.hpp:951-962 | any batch released a second time is refused by .NET and Go and undefined in C++ |
| HandleTokens.ReleasedTwice | include/vinary_tree/interop.hpp:1041-1066 | the input of one token that is released twice |
| HandleTokens.HandleTable.ReleaseTokens | bindings/go/semiring.go:208-228 | Go deletes exactly the handles of a batch of live, own, distinct tokens, none twice, or changes nothing |
| ReleaseRaces.RunKeepsInv | bindings/go/callbacks.go:447-475 | while batches that pass are live and disjoint, every schedule deletes only what is still there |
| ReleaseRaces.SharedBreaks | bindings/go/semiring.go:208-228 | two releases that share a handle and pass alone can both validate it and then both delete it |
| ReleaseRaces.RacesSafeIff | include/vinary_tree/interop.hpp:1041-1066 | no interleaving deletes a handle that is gone exactly if the batches that pass hold live tokens only and are pairwise disjoint |
| ReleaseRaces.LookupSafeIff | bindings/dotnet/src/VinaryTree.Interop/SemiringProviders.cs:308-333 | for Go and .NET exactly if they are pairwise disjoint |
| Folds.FoldFromIdentity | bindings/python/src/vinary_tree_interop/__init__.py:2900-2910 | the loop from the identity is the left fold, up to the first failing operation |
| Folds.FoldFromFirst | bindings/go/semiring.go:285-306 | the loop from the first operand is the left fold of the rest |
| Folds.FoldsAgreeIffLeftIdentity | bindings/go/semiring.go:290-306 | the two loops agree on all operand lists exactly if the identity is a left identity |
| Folds.ReadAllIsFold | include/vinary_tree/interop.hpp:1214-1224 | decoding operands as the loop comes to them is folding their values, if none is gone |
| Folds.FoldOneMore | bindings/go/semiring.go:290-306 | one more operand is one more operation on the result so far |
| Folds.OutcomeIff | bindings/dotnet/src/VinaryTree.Interop/SemiringProviders.cs:393-416 | a batch that resolves yields its fold unless it is too long, an operation fails or the result is null, binding by binding |
| Folds.RejectedIff | include/vinary_tree/interop.hpp:1202-1225 | it is rejected exactly if an operand is foreign, or, but for C++, gone |
| Folds.BindingsAgreeIff | bindings/dotnet/src/VinaryTree.Interop/SemiringProviders.cs:393-416 | two bindings answer every batch within the limit in which nothing is gone alike exactly if they start alike or the identity is a left identity, and both or neither are C++ or no operation returns null |
| Folds.AlwaysAgreeIff | bindings/go/semiring.go:268-311 | and every batch exactly if moreover both or neither have the limit and both or neither look handles up |
| Folds.FourAgreeIff | include/vinary_tree/interop.hpp:1202-1225 | for a left identity and operations that return no null, all four agree on a batch exactly if it has at most 256 tokens and none is gone, or one is foreign |
| Folds.LimitsDiffer | bindings/go/semiring.go:268-271 | beyond 256 tokens Python and Go refuse what C++ and .NET fold |
| Folds.GoneDiffers | include/vinary_tree/interop.hpp:1209-1213 | a batch with a dead token and no foreign one: the others reject it, C++ reads the dead node unless an operation fails before |
| Folds.GoneOperand | include/vinary_tree/interop.hpp:951-962 | the input of one released token given to a fold |
| Folds.FoldGo | bindings/go/semiring.go:268-311 | resolves every operand before the first operation, folds, and owns the result behind one new handle |
| Folds.FoldHandles | bindings/dotnet/src/VinaryTree.Interop/SemiringProviders.cs:393-416 | C++ and .NET check every operand, then decode and fold one after the other, and own the result behind one new handle, or inline |
| Folds.HandleFoldAddsOne | bindings/go/semiring.go:268-311 | success adds exactly the new handle holding the fold, and consumes no operand; failure and inline values add none |
| Folds.PythonFoldsBatch | bindings/python/src/vinary_tree_interop/__init__.py:2884-2912 | in every reachable state the Python operation on its table answers as the batch model says, and owns the result as the next token unless 2^64 - 1 values were offered |
| Folds.SemiringFold | bindings/python/src/vinary_tree_interop/__init__.py:2884-2912 | resolves the operands, folds, and owns the result, with the failures of each step |
| Folds.FoldAddsOne | bindings/python/src/vinary_tree_interop/__init__.py:2884-2912 | success adds exactly one new token holding the fold and consumes no operand; failure changes no token |
| ArcPaging.SliceGo | bindings/go/wfst.go:180-227 | validates all arcs and serves the promised slice |
| ArcPaging.SliceIntoBuffer | include/vinary_tree/interop.hpp:389-428 | C++ validates flags, reserved bytes, labels and weights of the page, writes the slice in place and nothing behind it, or writes nothing |
| ArcPaging.SliceEncoded | bindings/dotnet/src/VinaryTree.Interop/ScalarWfstProviders.cs:223-270 | .NET validates the page and writes its encoding in place and nothing behind it, or writes nothing |
| ArcPaging.SlicePython | bindings/python/src/vinary_tree_interop/__init__.py:1023-1063 | validates and serves the slice |
| ArcPaging.SlicersAgreeIff | bindings/dotnet/src/VinaryTree.Interop/ScalarWfstProviders.cs:223-270 | the slicers agree exactly if Go's page limit is kept and no invalid arc hides outside the page |
| ArcPaging.RawAgreesIff | include/vinary_tree/interop.hpp:401-417 | C++ and the other two agree on what arcs stand for, exactly unless a malformed arc of the page is otherwise in order |
| ArcPaging.GoServes | bindings/go/wfst.go:180-227 | Go serves the arcs from `start` on unless more than 2^20 are asked for or an arc of the state has a label outside the domain or a NaN |
| ArcPaging.LocalServes | bindings/dotnet/src/VinaryTree.Interop/ScalarWfstProviders.cs:223-270 | .NET and Python unless such an arc is in the page |
| ArcPaging.CppServes | include/vinary_tree/interop.hpp:389-428 | C++ the same, for raw arcs, and no flag beyond one or reserved byte |
| ArcPaging.StateArcs | bindings/go/wfst.go:406-430 | the reassembly loop ends for any provider, with the result of the specification |
| ArcPaging.CollectMeaning | bindings/go/wfst.go:406-430 | a result was assembled from contiguous pages that agree on the total |
| ArcPaging.CollectedIff | bindings/go/abi.go:224-256 | there is a result exactly if every page asked for is in order: status, counts, progress, a common total, flags of at most one, and what only Go or only Python looks at |
| ArcPaging.ResultIsPages | bindings/go/wfst.go:406-430 | it is the arcs of those pages, each at its position |
| ArcPaging.GoTotalIsReported | bindings/go/abi.go:224-256 | for any provider the Go result is exactly as long as every page reported |
| ArcPaging.LengthIff | bindings/python/src/vinary_tree_interop/__init__.py:1461-1529 | a result has at least the reported length, and exactly that if and only if no page the consumer asks for passes its total |
| ArcPaging.PythonMayOvershoot | bindings/python/src/vinary_tree_interop/__init__.py:1461-1529 | so for Python, and a provider with which it returns more |
| ArcPaging.ConsumersAgreeIff | bindings/go/abi.go:224-256 | Python returns what Go returns unless that has a NaN, and Go what Python returns exactly if no page asked for passes its total |
| ArcPaging.NumbersAgreeIff | bindings/go/wfst.go:406-430 | without NaN the results, failures included, are equal exactly if Python fails or no page asked for passes its total |
| ArcPaging.ReassemblyIsExact | bindings/go/wfst.go:406-430 | slices of any size reassemble to exactly the arcs, in max(1, ceil(n / batch)) calls |
| StableBytes.Write | bindings/go/callbacks.go:67-85 | what each of the three kinds of writer refuses or puts into the buffer, and that the rest of it is untouched |
| StableBytes.ReadStable | include/vinary_tree/interop.hpp:455-498 | against any provider the retry loop makes at most four calls with buffers of at most 16 MiB, with the result of the specification |
| StableBytes.StableMeaning | bindings/python/src/vinary_tree_interop/__init__.py:1774-1823 | whatever the provider answers, a result is what one call delivered, with as many bytes written as required, within buffer and limit |
| StableBytes.StableIff | include/vinary_tree/interop.hpp:455-498 | a result is returned exactly if the size query writes nothing and one of three calls, after others that asked for more each time, delivers it completely |
| StableBytes.WritingSettles | bindings/dotnet/src/VinaryTree.Interop/LatticeProviders.cs:42-83 | of any of the writers the readers get the settled encoding |
| StableBytes.SettledMeaning | bindings/python/src/vinary_tree_interop/__init__.py:1774-1823 | that is, one exists exactly if one of three attempts settles; it is the first such encoding, whole |
| StableBytes.ConstantSettles | bindings/dotnet/src/VinaryTree.Interop/LatticeProviders.cs:42-83 | an encoding that does not change is read, up to 16 MiB |
| StableBytes.ReadExact | bindings/go/abi.go:258-279 | against any provider the Go reader makes at most two calls, and a nonempty result is what the second delivered completely |
| StableBytes.ExactIff | bindings/go/abi.go:258-279 | a result is returned exactly if the size query succeeds without bytes, and the size is zero or the next call delivers as many |
| StableBytes.WritingExact | bindings/go/abi.go:258-279 | of any of the writers it gets the encoding exactly if its size did not change |
| StableBytes.ExactIsStricter | bindings/go/abi.go:258-279 | what Go reads of a nonempty encoding the other readers read too; when they differ |
| Cookies.Counter.Create | bindings/dotnet/src/VinaryTree.Interop/SemiringProviders.cs:273-289 | the signed wrapping counter of a value type yields the cookie of the creation number |
| Cookies.CookiesCollideIff | bindings/dotnet/src/VinaryTree.Interop/SemiringProviders.cs:287-287 | two different numbers less than 2^64 apart share a cookie exactly at two distances, depending on parity |
| Cookies.CookiesEqualIff | bindings/dotnet/src/VinaryTree.Interop/SemiringProviders.cs:287-287 | any two numbers have the same cookie exactly if their remainders modulo 2^64 are equal or at those distances |
| Cookies.NearCookiesDiffer | bindings/dotnet/src/VinaryTree.Interop/SemiringProviders.cs:287-287 | different numbers fewer than 2^59 apart have different cookies |
| Cookies.OwnTokenDecodes | bindings/dotnet/src/VinaryTree.Interop/SemiringProviders.cs:469-512 | a context decodes what it encoded |
| Cookies.ForeignTokenIff | bindings/dotnet/src/VinaryTree.Interop/SemiringProviders.cs:488-512 | a context accepts a token of any other context, of any value type, exactly if the cookies are equal and it is inline, or the other is and the value spells one of its handles; what it decodes |
| Cookies.ForeignTokenRejected | bindings/dotnet/src/VinaryTree.Interop/SemiringProviders.cs:488-512 | a context of the same type created fewer than 2^59 creations apart rejects it |
| Cookies.TypesShareCookies | bindings/dotnet/src/VinaryTree.Interop/SemiringProviders.cs:272-287 | an inline context takes the tokens of every context of another value type with the same number |
| Cookies.FirstContextsCollide | bindings/dotnet/src/VinaryTree.Interop/SemiringProviders.cs:272-287 | the input of the first contexts of two value types |
| LuaU64.ParseDecimal | bindings/lua/vinary_tree_lua_u64.h:19-32 | accepts exactly nonempty strings of digits up to 2^64 - 1, of any length, without intermediate overflow |
| LuaU64.Check | bindings/lua/vinary_tree_lua_u64.h:12-32 | integers if not negative, strings as above, nothing else |
| LuaU64.Push | bindings/lua/vinary_tree_lua_u64.h:34-44 | an integer or the decimal digits; the buffer always suffices |
| LuaU64.RoundTrip | bindings/lua/vinary_tree_lua_u64.h:12-44 | parsing what was pushed returns the same value, for every unsigned 64-bit integer |
| LuaU64.TextReads | bindings/lua/vinary_tree_lua_u64.h:12-32 | the decimal text of every unsigned 64-bit integer reads as it, with any number of leading zeros |
| LuaU64.OthersRefused | bindings/lua/vinary_tree_lua_u64.h:12-32 | texts beyond the range, empty or with another character, negative integers and other values are refused |
| LuaU64.PushIsInjective | bindings/lua/vinary_tree_lua_u64.h:34-44 | different values are pushed differently |
| LuaU64.AcceptedRoundTrips | bindings/lua/vinary_tree_lua_u64.h:12-44 | whatever is accepted can be pushed again and comes back |

## Left out

- Atomic operations are sequentially consistent steps; weaker memory orders are not modelled (Go and .NET interlocked operations do not have them).
- Finalizers, the timing of the cleaner, `cgo` and `GCHandle` internals, arenas and alignment of real memory: native calls are events, arenas are sequences with addresses.
- Interface negotiation, vtable and metadata validation, struct layouts and status conversions: lookups without a deep property.
- Null-pointer arguments of byte writers and slicers, which return a status before anything else happens; the token table has them.
- The `reduce` operation of entries cursors, which neither consumer calls.
- Consumers do not check that generations increase, so nothing is claimed about that.
- .NET `Dispose` from several threads, and `current` after an exception.
- Provider operations that throw instead of returning, other than as a failure: lock order and panics inside a callback are not modelled, nor is the mutex of Go's callback gate.
- Bulk operations of customer providers (`plus_many`, `BatchSemiringProvider`): `Folds` is about the operations without them.
- Lattice operations and folds over resources: each step is one native call on abstract operands.
- Weights but for NaN, numeric projections, and the laws of customer algebras other than a left identity and results that are not null.
- Paged Go providers (`PagedScalarWfstProvider`) and direct `StateArcsPage` calls with a start near 2^64; the loop never reaches such a start.
- Lua floats given where an integer is expected: Lua turns them into strings with a point or exponent, which the digit loop rejects.
- Reuse of a handle or heap address by a later value: a dead token whose handle is handed out again stands for the new value, in the code and in the model.
- A .NET lookup of a handle that was freed or never existed is modelled as one that fails; the runtime promises less. Pointers have 64 bits.
- Errors other than an exhausted memory while a batch is copied, and exceptions raised while another exception is reported.
- Statuses of a failed fold beyond the outcomes modelled: Go answers `PROVIDER_ERROR` to a deleted handle, whose lookup panics, where the others answer `INVALID_ARGUMENT`, and an operation may fail with a status of its own.
- A run-level converse of safe teardown is false, because a run with a swallowed retain need not go wrong before its end; the converse proved is about continuations (`SwallowedIsDoomed`, `ReleasesAreSafeIff`).
