# Concolic debugger: breakpoints, stops and the wire

A Dafny model of a program under a binary-instrumentation debugger that is driven by remote procedure calls, and of the
wire format those calls travel in, with proofs of what the two promise.

* **The debugger** keeps active breakpoints (address to remaining count), deferred ones (module-relative), the requested
  stop events, and the context and block of the last stop. It compiles the breakpoint table into a cache of instrumented
  blocks, counts hits from there, flushes stale blocks, activates deferred breakpoints when modules load, and stops and
  resumes the application threads. `Tables`, `Activation`, `Instrument` and `Resolve` say what the operations compute,
  `Resolutions`, `Loading` and `CodeBytes` what that means in addresses, symbols and bytes of code;
  `Evaluator` has the handlers, clean calls and callbacks as they run; `Refinement` compares the cache with a debugger that
  has none, `Resumption` and `Sessions` go on from stop to stop; `Protocol` interleaves one server thread with any number
  of application threads, statement by statement where the interleaving can be seen; `Lockstep` ties its requests to the
  same reference debugger and `Operations` to the handlers; `ProtocolSafety`, `ProtocolRuns`, `Executions`, `OldBlocks`, `StopBlocks`, `StopRecords`, `DeferredNames`,
  `ErrorExits`, `Wakeups` and `Staleness` prove what all runs keep, and exactly when some of it fails.
* **The wire** is the Apache Thrift Binary Protocol. `Binary` has numbers and strings, `Wire` values of any type and how
  they are skipped, `Codec` the readers and `Messages` the writers, both driven by a table of the fields each generated
  `read` and `write` handles; `Structs` and `Service` hold those tables for the seven structs and the six methods.
  `Streams` and `Endpoints` have the same as loops over streams. `WireBytes` and `MessageBytes` spell out every struct and
  message byte by byte; `Strays` has the messages nobody expects. `Independence`, `Freshness`, `Transparency` and
  `Snapshot` prove what arrives; `RemoteDebugger` puts the debugger behind it: a remote session is one with the reference
  debugger.
* **The orders** (`Types`, `Ordering`, `Lexicographic`, `Ordered`) are the four hand-written `operator<`, on which the deferred table and
  the set that `getBreakpoints` returns depend.

## Assumptions on the environment

* A run starts suspended, with empty tables, an empty cache and every thread in application code (`Protocol.Init`).
* A flush empties the cache before the next block is looked up; a block already entered may finish its old clean calls.
  So a breakpoint added while a thread stands inside a block can be missed in the rest of that block, exactly if an
  instruction left there has no count call in front (`OldBlocks`, `Resumption`).
* A suspension completes only when every application thread is in application code or waiting for the mutex.
* The event is auto-reset; remote calls are served one at a time.
* At a module's load no cached block has an address in `[start, end]`, `end` included, as in the check of the callback;
  every deferred key of the module then resolves into it.
* Loaded modules have unique preferred names without NUL bytes.
* Blocks are straight-line: their instructions lie between the first and the end of the last. `Instrument` proves exactly
  when coverage holds without this.
* For `Wakeups`: one application thread, which starts no further clean call once it has signalled, until the next resume.
* For `Staleness`: one application thread, and blocks whose instructions have distinct addresses.

## What the code does that its interface does not say

* `RelAddr::operator<` compares stored values but decides whether to look into the offset by a flag-aware `!=`. With stale
  values under unset flags it is not transitive; values off the wire never have any (`Freshness`). On values
  off the wire `Breakpoint::operator<` is a strict total order that agrees with `==` exactly as long as no two have the
  same stored address under different flags, such as an absolute address 0 and no address at all.
* The range test of `event_basic_block` misses a breakpoint behind an elided jump when no other active address lies between
  the block's ends.
* A breakpoint whose count is zero can be added again; it then replaces the old one, so that deleting it does not restore the tables.
* A count of zero fires on hit 2^64, a negative count `c` on hit 2^64 + `c`.
* A module name is looked up as a C string, but compared as a whole when a module loads. A breakpoint deferred under a
  name with a NUL, and only such a one, can come to resolve and still stay deferred; it can then no longer be deleted
  (`DeferredNames`).
* `getCodeBlock` of a block that ends below its start, as one behind an elided backward jump may, throws in the copy of its
  bytes and leaves the mutex held.
* If a thread signals twice before it is suspended, the next request finds the event set, takes the "Unable to
  locate stopped context" exit, and releases a mutex nobody holds. `ErrorExits` shows that exactly the requests that find
  the event set can end there.
* A struct read into a used object keeps optional fields the message omits: a reused `CodeBlock` can report the module of an earlier stop.
* An exception of `executeUntilEvent` or `getBreakpoints`, which declare none, reaches the client as an application
  exception with the text of `what()` up to its first NUL.

## Model

| member | source | states |
|---|---|---|
| `Ordering.OffsetOrder` | helpers.cpp:15-19 | `OffsetOrSymbol::operator<` is irreflexive and transitive on all values; on values with one alternative set, unset fields at their defaults and no empty symbol, two are incomparable exactly when `operator==` holds |
| `Ordering.RelOrder` | helpers.cpp:9-13 | the order of the deferred table's keys is a strict weak one on every value a reader can produce, and a strict total one, agreeing with `==`, on proper values |
| `Ordering.AddrOrder` | helpers.cpp:3-7 | the same for `AbsOrRelAddr` |
| `Ordering.BreakpointOrder` | helpers.cpp:21-25 | `Breakpoint::operator<` is irreflexive and transitive on every value a reader can produce; on proper values it is a strict total order agreeing with `==` |
| `Ordering.BreakpointOrderAgreesExactly` | gen-cpp/concolic_types.h:245-252 | on values a reader can produce, incomparable and `==` mean the same exactly when equal stored addresses carry equal flags |
| `Ordering.BreakpointOrderExactly` | helpers.cpp:21-25 | on any set of such values `Breakpoint::operator<` is a strict total order agreeing with `==` if and only if no two of them have the same stored address under different flags, whatever alternatives are set |
| `Ordering.ClashBreaksSets` | helpers.cpp:21-25 | for any two that do there is a third with which incomparability is not transitive |
| `Ordering.RelOrderExactly` | helpers.cpp:9-13 | a value can join those a reader yields in a strictly ordered set of `RelAddr` if and only if it has no stale fields itself |
| `Ordering.RelOrderNeedsFresh` | helpers.cpp:9-19 | with stale values under unset flags `RelAddr::operator<` is not even transitive (witness; the exact domain is in the row above) |
| `Ordering.BreakpointOrderNeedsProper` | helpers.cpp:21-25 | there are values a reader can produce on which incomparability of breakpoints is not transitive (witness; the exact domain is in the rows above) |
| `Lexicographic.OffsetLexicographic` | helpers.cpp:15-19 | the order by the first difference: the smaller offset first, then the symbol that has ended or has the smaller byte |
| `Lexicographic.RelLexicographic` | helpers.cpp:9-13 | on values a reader yields, the same with the module name in front |
| `Lexicographic.AddrLexicographic` | helpers.cpp:3-7 | and the absolute address, as a signed number, in front of that |
| `Lexicographic.BreakpointLexicographic` | helpers.cpp:21-25 | and then the smaller count, unless the flags of equal addresses differ |
| `Lexicographic.PrefixFirst` | helpers.cpp:10 | a proper prefix comes first among strings |
| `Lexicographic.SnapshotAscending` | gen-cpp/ConcreteEvaluator_server.cpp:76-90 | a snapshot lists its addresses in ascending order, as signed numbers |
| `Ordered.InsertCorrect` | gen-cpp/ConcreteEvaluator_server.cpp:87 | insertion into a `std::set` keeps it sorted and adds exactly the element, unless an equivalent one is there |
| `Ordered.InsertAllSorted` | gen-cpp/ConcreteEvaluator.cpp:471-484 | inserting the elements of a set in its own order, as the reader's loop does, rebuilds it |
| `Words.CStr` | helpers.hpp:62 | the C string a lookup sees is the longest NUL-free prefix of the name |
| `Resolve.LocateThenResolve` | gen-cpp/ConcreteEvaluator_server.cpp:137-149 | the module-relative address `getCodeBlock` reports, and the absolute one, both resolve to the block under 64-bit conversions, for addresses in both halves of the address space |
| `Resolve.ResolvesElsewhereExactly` | helpers.hpp:62-64 | a relative address resolves in a module it does not name exactly if its name has a NUL behind the name of a loaded module |
| `Resolve.NulInNameResolvesElsewhere` | helpers.hpp:62-64 | there is such an address (witness) |
| `Resolve.EqualResolveAlike` | helpers.hpp:58-82 | addresses that are `==` resolve alike, whatever their unset fields hold |
| `Resolutions.AbsoluteResolves` | helpers.hpp:59-60 | a set absolute address decides, whatever else is set, read as an unsigned word |
| `Resolutions.OffsetResolves` | helpers.hpp:66-67 | in a loaded module a set offset decides, whatever symbol is set: it is added to the start modulo 2^64 |
| `Resolutions.SymbolResolves` | helpers.hpp:68-72 | else a symbol, up to its first NUL, is where the module has it, and throws exactly if it has none |
| `Resolutions.OtherResolves` | helpers.hpp:64-80 | a module that is not loaded, and addresses with nothing set |
| `Resolutions.AtAddress` | gen-cpp/ConcreteEvaluator_server.cpp:29-36 | what adding and deleting at a resolved address make of the tables, count modulo 2^64 |
| `Resolutions.AddSymbolDeleteAbsolute` | gen-cpp/ConcreteEvaluator_server.cpp:25-74 | adding at a symbol sets its count at the address the module has for the symbol, and deleting at that address restores the tables |
| `Resolutions.MissingSymbolThrows` | helpers.hpp:71-72 | a symbol the module does not have throws from both operations, with both names in the exception, and leaves the tables |
| `Resolutions.BaseAndOffset` | gen-cpp/ConcreteEvaluator_server.cpp:137-147 | the base reported for a block is the start of its module, and base plus offset is the block, modulo 2^64 |
| `Instrument.WeaveCalls` | concrete_eval.cpp:206-212 | the calls inserted into a block are exactly those for its marked instructions |
| `Instrument.CoveredIsCounted` | concrete_eval.cpp:206-218 | in a covered block every active instruction stands directly behind its own count call, and a requested report is first |
| `Instrument.InstrumentedCoversExactly` | concrete_eval.cpp:202-218 | a newly built block is covered, calls in place, if and only if the range test succeeds or none of its instructions is active |
| `Instrument.InstrumentedCovers` | concrete_eval.cpp:195-218 | it always does for blocks whose instructions lie between first and last |
| `Instrument.ElidedJumpHidesBreakpoint` | concrete_eval.cpp:203-205 | a block that continues behind an elided jump can hide an active breakpoint from the range test (witness) |
| `CodeBytes.CallSpansBlock` | concrete_eval.cpp:195-218 | in a contiguous block that does not wrap, an address lies between the ends every inserted call names if and only if an instruction has a byte there |
| `CodeBytes.BlockInMemory` | gen-cpp/ConcreteEvaluator_server.cpp:127-131 | what is in memory between those ends is the bytes of the block's instructions, one after the other |
| `Instrument.HitsToFireExact` | concrete_eval.cpp:117-130 | hit again and again, an active breakpoint stays as long as it was hit less often than its count says, and fires on exactly that hit |
| `Tables.OperationsKeepValid` | gen-cpp/ConcreteEvaluator_server.cpp:25-74 | adding and deleting keep the deferred table sorted by `operator<` with distinct keys, for every breakpoint a reader can produce |
| `Tables.AddThenDelete` | gen-cpp/ConcreteEvaluator_server.cpp:50-74 | deleting what was just added succeeds, and restores the tables exactly unless the addition replaced an active breakpoint of count zero |
| `Tables.AddTwice` | gen-cpp/ConcreteEvaluator_server.cpp:31-45 | a second addition at the same place, however it is named, throws "Breakpoint already exists" and changes nothing, unless the first left an active count of zero |
| `Tables.DeleteTwice` | gen-cpp/ConcreteEvaluator_server.cpp:56-71 | deleting what was deleted throws "Breakpoint not found" and changes nothing |
| `Tables.AddRelativeDeleteAbsolute` | gen-cpp/ConcreteEvaluator_server.cpp:122-151 | adding at the relative address reported for a block and deleting at its absolute address restores the tables when the address was free |
| `Tables.ReportedFaithful` | gen-cpp/ConcreteEvaluator_server.cpp:81-88 | a reported breakpoint is proper, resolves to the address it was made from and converts back to its count, at or above 2^63 too |
| `Tables.AddAllReported` | gen-cpp/ConcreteEvaluator_server.cpp:25-48 | re-adding reported breakpoints in any order to tables where their addresses are free throws nothing and sets exactly their entries |
| `Tables.SnapshotRestores` | gen-cpp/ConcreteEvaluator_server.cpp:76-90 | a snapshot re-added in any order to tables with nothing active rebuilds the active table |
| `Activation.ActivateExact` | concrete_eval.cpp:169-180 | after a load the active addresses are the old ones and the resolved ones; each resolved address holds the count of the last matching key in `operator<` order that resolves to it, every other keeps its own |
| `Activation.OthersExact` | concrete_eval.cpp:182-184 | exactly the entries of other modules stay deferred, in the same order |
| `Activation.LoadConservesCounts` | concrete_eval.cpp:165-185 | if resolution is injective and avoids old addresses the counts of both tables together are conserved |
| `Loading.CompletesExactly` | concrete_eval.cpp:169-176 | a load completes if and only if every deferred key of the module has an offset of at most the size of the module, as an unsigned word, or a symbol the module has within its bounds, upper end included |
| `Loading.DeferAdds` | gen-cpp/ConcreteEvaluator_server.cpp:37-45 | deferring a breakpoint, in any tables, adds one entry with its key and count |
| `Loading.DeferThenLoad` | concrete_eval.cpp:157-188 | a breakpoint deferred and then loaded is active where its key lands, with its count, and no longer deferred; everything else is as if it had never been added |
| `Loading.OffsetLandsAt` | concrete_eval.cpp:174-176 | an offset from 0 to the size of the module lands at the start plus the offset |
| `Evaluator.Evaluator.AssertHelper` | helpers.hpp:48-56 | throws exactly when the condition fails, and then releases the mutex exactly if told to |
| `Evaluator.Evaluator.AddBreakpoint` | gen-cpp/ConcreteEvaluator_server.cpp:25-48 | new tables and exception are those of `Tables.Add`; the mutex is free again on every path |
| `Evaluator.Evaluator.DelBreakpoint` | gen-cpp/ConcreteEvaluator_server.cpp:50-74 | new tables and exception are those of `Tables.Delete`; flushes exactly when an active breakpoint was deleted |
| `Evaluator.Evaluator.GetBreakpoints` | gen-cpp/ConcreteEvaluator_server.cpp:76-90 | the result is a sorted set with exactly one element for every active breakpoint: the set order merges none |
| `Evaluator.Evaluator.SuspendHelper` | helpers.hpp:21-39 | records event and block and signals once |
| `Evaluator.Evaluator.UpdateFastforwardCount` | concrete_eval.cpp:113-139 | the table after one hit, a flush exactly for stale instrumentation, a recorded stop and a signal exactly when a breakpoint fires and breakpoint stops are asked for |
| `Evaluator.Evaluator.RelevantBlockCleanCall` | concrete_eval.cpp:141-148 | a recorded stop and a signal exactly when relevant blocks are asked for |
| `Evaluator.Evaluator.EventBasicBlock` | concrete_eval.cpp:190-223 | the in-place insertion yields the instrumented block of the specification, which covers straight-line blocks |
| `Evaluator.Evaluator.ActivateAll` | concrete_eval.cpp:165-180 | the first loop: completes exactly when every matching key resolves into the module, with the active table of `Activation.Activate`, and lists every matching key |
| `Evaluator.Evaluator.EraseAll` | concrete_eval.cpp:182-184 | the second loop leaves exactly the entries of other modules |
| `Evaluator.Evaluator.ModuleLoaded` | concrete_eval.cpp:157-188 | both: completes exactly when every deferred key of the module lands within its bounds, told by offsets and symbols, and then leaves the tables of `Activation.Load` |
| `Evaluator.Evaluator.GetCodeBlock` | gen-cpp/ConcreteEvaluator_server.cpp:122-151 | address, bytes and module information of the stopped block; its relative address resolves back to it; throws exactly when no block was recorded, or one that ends below its start, and then alone leaves the mutex held |
| `Evaluator.LocatedExactly` | gen-cpp/ConcreteEvaluator_server.cpp:136-149 | the module told of a block is a loaded one the block begins in, with its name, its start as the base and the distance from there as the offset; none exactly if there is none |
| `Evaluator.CopiedCode` | gen-cpp/ConcreteEvaluator_server.cpp:127-131 | after a stop at any call of a contiguous block, the address is that of the block and the bytes are those of its instructions |
| `Refinement.SystemFollows` | concrete_eval.cpp:113-223 | from any cache that counts at least the active instructions, building on a miss, running the clean calls and forgetting stale blocks stops where the reference debugger stops |
| `Refinement.FirstStopAgrees` | concrete_eval.cpp:113-223 | from a flushed cache, for every table, stop set and sequence of blocks and loads, the first stop has the same block, instruction, event and remaining table as in a debugger that checks the table before every instruction |
| `Refinement.RelevantBlockComesFirst` | concrete_eval.cpp:215-218 | a requested relevant-block stop comes at the first block entered, before any breakpoint of it is counted |
| `Refinement.StraightLineExactly` | concrete_eval.cpp:202-213 | a block is stopped in as the reference debugger would, for every table and stop set, if and only if it is straight-line |
| `Refinement.ApartExactly` | concrete_eval.cpp:157-188 | a straight-line block entered before and after a load is treated as the reference debugger would, for every table and stop set, if and only if the load activates no address in it |
| `Resumption.ResumedExactly` | concrete_eval.cpp:113-223 | a request that resumes inside a block: what is left of it and all that follows is run as the reference debugger would, for all counts and stop sets, if and only if every instruction left at an active address, but one already counted, has its count call in front |
| `Sessions.StopFromFits` | concrete_eval.cpp:113-148 | at the next stop that is so again, for the same instructions, and the call that stopped names the ends of the block the reference debugger is in |
| `Sessions.SessionAgrees` | gen-cpp/ConcreteEvaluator_server.cpp:25-120 | any number of requests, each resumed where the last stopped, with any breakpoints deleted in between and any added outside what is left of the block: the stops, events and tables of the reference debugger |
| `Lockstep.RequestStops` | concrete_eval.cpp:113-223 | a request of the interleaved protocol, whatever else happens beside the thread that leaves the table, the cache and its record alone: when the thread comes to its stop, the reference debugger has stopped after the same blocks, before the same instruction, with the same event and table, and they stand at the same place again; the context recorded has that event, and the block recorded the ends of the block the reference debugger is in |
| `StopBlocks.RecordedBlockEntered` | helpers.hpp:21-30 | in every run, with any number of threads, a recorded block and that of every stop in progress, for a breakpoint or a relevant block, is from first address to end one that a thread entered |
| `StopBlocks.RecordedBlockCode` | gen-cpp/ConcreteEvaluator_server.cpp:127-131 | so if blocks are contiguous, memory between the recorded ends is the code of an entered block |
| `StopBlocks.StopsNumberedApart` | helpers.hpp:21-30 | in every run the stops in progress and the records carry numbers that tell their clean calls apart |
| `Operations.AddingAlone` | gen-cpp/ConcreteEvaluator_server.cpp:25-48 | a request to add, served by the protocol's steps, leaves the tables of `Tables.Add` and all else as it was |
| `Operations.DeletingAlone` | gen-cpp/ConcreteEvaluator_server.cpp:50-74 | one to delete leaves the tables of `Tables.Delete`, and an empty cache exactly if an active breakpoint was deleted |
| `Operations.LoadingAlone` | concrete_eval.cpp:157-188 | a load by the protocol's steps leaves the tables of `Activation.Load` and the module among the loaded ones |
| `Operations.CountingAlone` | concrete_eval.cpp:113-139 | the counting clean call by the protocol's steps: the table after one hit, an empty cache exactly if it was stale, and event, ends and signal exactly if it fires and breakpoint stops are asked for |
| `Operations.ReportingAlone` | concrete_eval.cpp:141-148 | the relevant-block clean call: event, ends and signal exactly if asked for |
| `ProtocolSafety.AlternatesKept` | helpers.hpp:5-19 | every step keeps suspension and `suspend_params` in step with the server's statements, with no assertion failing |
| `ProtocolSafety.ExcludesKept` | concrete_eval.cpp:116-136 | every step keeps mutual exclusion, until the exit that releases an unowned mutex is taken |
| `ProtocolSafety.StopsAskedKept` | concrete_eval.cpp:141-148 | every step keeps recorded and pending stops within the events of the request being served, and recorded after its resume |
| `ProtocolSafety.CoveredKept` | concrete_eval.cpp:190-223 | every step keeps every cached block covered, each active instruction directly behind its count call: add, delete, firing, load without flush, build, stale flush, resume |
| `ProtocolSafety.SeparatedKept` | concrete_eval.cpp:157-188 | every step keeps deferred keys and loaded modules apart by whole name, outside the load callback of the module |
| `ProtocolSafety.PairsAgreeKept` | helpers.hpp:21-30 | every step keeps stopped context and block from the same clean call, up to the assignment in progress |
| `ProtocolSafety.InvariantAfter` | gen-cpp/ConcreteEvaluator_server.cpp:92-120 | all of these hold after every run from the suspended start, for any number of threads |
| `ProtocolRuns.SuspensionAlternates` | helpers.hpp:5-19 | in every run both assertions hold, the program is suspended with `suspend_params` set at every request, and the mutex is free during every suspension unless the error exit was taken |
| `ProtocolRuns.CachedBlocksCovered` | concrete_eval.cpp:157-223 | in every run, whenever application threads run, every cached block has its count call directly in front of each active instruction, and begins with its report exactly if relevant blocks are asked for |
| `ProtocolRuns.DeferredSeparated` | gen-cpp/ConcreteEvaluator_server.cpp:29-45 | in every run no deferred key has the whole name of a loaded module outside its load callback, and an address resolved without the mutex is still right when the mutex is taken |
| `DeferredNames.LookupAgainstComparison` | concrete_eval.cpp:169-170 | a name whose C string names a loaded module is that module's name exactly if it has no NUL |
| `DeferredNames.NoLoadMatchesNul` | concrete_eval.cpp:170 | no load activates an entry whose module name has a NUL |
| `DeferredNames.DeferredDoesNotResolve` | gen-cpp/ConcreteEvaluator_server.cpp:37-45 | in every run a deferred key without a NUL does not resolve, outside the load callback of its module |
| `DeferredNames.StrandingRun` | concrete_eval.cpp:157-188 | for every key with a NUL in its module name and an offset or symbol, and every start in which it does not resolve: the run that defers it, loads the module it is looked up in, and leaves it deferred |
| `DeferredNames.StrandedExactly` | concrete_eval.cpp:169-170 | such a key can be deferred, resolve and stay deferred, with no callback or clean call under way, if and only if its module name has a NUL |
| `DeferredNames.StrandedCannotBeDeleted` | gen-cpp/ConcreteEvaluator_server.cpp:50-74 | deleting a stranded breakpoint leaves it deferred, and throws "Breakpoint not found" exactly if none is active where it resolves |
| `StopRecords.WrittenInPairsKept` | helpers.hpp:21-30 | kept by every step, requests for breakpoint stops included |
| `StopRecords.RecordsAgreeExactly` | helpers.hpp:5-11 | in every run whose requests all ask for breakpoint stops only, whenever the mutex is free the two agree if and only if the server is not between the two assignments by which a resume clears a recorded stop |
| `StopRecords.RequestRecordsAgreeExactly` | helpers.hpp:5-11 | in one request for breakpoint stops after any run, whenever the mutex is free: at every statement up to the first assignment they agree exactly if they did before, between the two exactly if no block was recorded, and from then on always |
| `ProtocolRuns.StopSound` | gen-cpp/ConcreteEvaluator_server.cpp:92-120 | when `executeUntilEvent` returns, its event is one of the stop events of that call and its context was recorded after that call's resume, with any number of threads, early wake-ups and threads left blocked |
| `ProtocolRuns.OnlyHitsCount` | concrete_eval.cpp:117-130 | no step but a hit at an address, or one that adds, deletes or activates there, changes its entry |
| `ProtocolRuns.OneHit` | concrete_eval.cpp:118-130 | one hit takes one off the remaining number, and fires exactly when that was one |
| `ProtocolRuns.FiresOnExactHit` | concrete_eval.cpp:113-131 | over any run that leaves it in place, a breakpoint is active exactly while it was hit fewer times than its count says, and fires on that hit and no other, whatever else interleaves |
| `ProtocolRuns.AddedFiresOnExactHit` | gen-cpp/ConcreteEvaluator_server.cpp:36 | added with `c` it fires on hit `((c - 1) mod 2^64) + 1`: on hit `c` for positive `c`, 2^64 for zero, 2^64 + `c` for negative |
| `Instrument.CoveredPaired` | concrete_eval.cpp:206-212 | in a block covered while an address is active, its count calls and its instructions stand in pairs, the call first |
| `Instrument.InstrumentedEven` | concrete_eval.cpp:202-213 | every block is built, for every address, with a count call for each of its instructions there or with none |
| `Executions.ReachableSettled` | concrete_eval.cpp:190-223 | in every run each cached block and each tail keeps that, and a thread in a count call stands right before the instruction it counts |
| `Executions.HitsAreExecutions` | concrete_eval.cpp:113-131 | over any run that leaves a breakpoint active, from any reachable state and with any number of threads: its hits and the arrivals at its instruction uncounted, with the threads standing there at first, are the executions of the instruction, the blocks left right before it, and the threads standing there at last |
| `Executions.FiresBeforeExecution` | concrete_eval.cpp:113-131 | so from any reachable state the next count fires, right before an execution, exactly if of the executions its count names, and those uncounted, all but one have happened, stand, or were left |
| `Executions.NothingMissed` | concrete_eval.cpp:131-138 | if every thread has a count call in front of what it still executes there, no arrival is uncounted, in any run |
| `Executions.ElsewhereCountsAhead` | concrete_eval.cpp:206-212 | as it has in a block with neither the instruction nor a count call for it |
| `OldBlocks.MissedExactly` | concrete_eval.cpp:131-138 | in every reachable state with the mutex free and only running threads inside blocks: some run that leaves an active breakpoint in place executes its instruction more often than it counts it, if and only if a thread is in a block with an instruction at that address that no count call for it stands directly in front of |
| `OldBlocks.AddedInStoppedBlock` | concrete_eval.cpp:141-148 | from every start, every straight-line block and every instruction of it: stopping at the block, adding a breakpoint there and running again leads to such a state |
| `Wakeups.BalancedKept` | helpers.hpp:21-39 | every prompt step of one thread keeps signals sent equal to signals consumed plus the one that may be set |
| `Wakeups.NoLostOrStaleWakeup` | gen-cpp/ConcreteEvaluator_server.cpp:107-119 | in every run of one thread that starts no clean call after signalling, no request takes the "Unable to locate stopped context" exit, and between requests as many signals were sent as consumed |
| `Wakeups.LateSuspensionBreaksNextRequest` | gen-cpp/ConcreteEvaluator_server.cpp:110-117 | a thread that signals twice before it is suspended makes the next request take that exit and release a mutex nobody holds (witness run) |
| `ErrorExits.SignalsRecordedKept` | helpers.hpp:21-39 | while a request that found the event clear is served, every step of every thread keeps the event set only with a context recorded after its resume |
| `ErrorExits.ExitsExactly` | gen-cpp/ConcreteEvaluator_server.cpp:92-120 | in every run, for any number of threads: a request can end in the "Unable to locate stopped context" exit if and only if the event is set and the mutex free when it arrives |
| `ErrorExits.EventDecides` | gen-cpp/ConcreteEvaluator_server.cpp:107-119 | until the exit is first taken the event alone decides |
| `ErrorExits.PromptRequestsReturn` | gen-cpp/ConcreteEvaluator_server.cpp:107-119 | after a prompt run of one thread no request can end there, however the thread behaves from then on |
| `Staleness.WellPaidKept` | concrete_eval.cpp:131-138 | every step of one thread keeps stale flushes plus dead instrumented addresses within firings plus deletions |
| `Staleness.StaleFlushesBounded` | concrete_eval.cpp:113-139 | over every run of one thread there are at most as many stale flushes as hits that fire and active breakpoints deleted |
| `Binary.I16RoundTrip` | gen-cpp/concolic_types.cpp:89 | a 16-bit number is read back as written, wherever it stands |
| `Binary.I32RoundTrip` | gen-cpp/ConcreteEvaluator.cpp:622-625 | a 32-bit number is read back as written |
| `Binary.I64RoundTrip` | gen-cpp/concolic_types.cpp:97 | a 64-bit number is read back as written |
| `Binary.StringRoundTrip` | gen-cpp/concolic_types.cpp:105 | a string of any bytes is read back as written |
| `Wire.Skip` | gen-cpp/concolic_types.cpp:110-112 | skipping never runs past the stream and never goes back; defined for every finite stream, so the read loops end on each |
| `Wire.Standing` | gen-cpp/concolic_types.cpp:123-144 | the encoding of any value is recognised wherever it is placed, with its exact length |
| `Wire.SkipPassesOver` | gen-cpp/concolic_types.cpp:99-100 | skipping a type passes over exactly the encoding of any value of that type, at every level of nesting, and leaves the suffix |
| `Codec.ReadStanding` | gen-cpp/concolic_types.cpp:74-121 | wherever a message stands in a stream, the reader finds its meaning and ends behind it |
| `Codec.ReadEncoded` | gen-cpp/concolic_types.cpp:645-700 | the same for a message between any two byte strings |
| `Messages.SentWellFormed` | gen-cpp/concolic_types.cpp:702-723 | what is written is well-formed when sizes fit |
| `Messages.MeaningOfSent` | gen-cpp/concolic_types.cpp:123-144 | what is written means, to a reader, the object read into with every written field replaced and every omitted one left as it was |
| `Messages.MergeEqual` | gen-cpp/concolic_types.h:345-357 | that is `==` to what was written if and only if no optional field the writer omits was set in the object read into |
| `Messages.FreshOverwritten` | gen-cpp/concolic_types.h:80-81 | which is so for every default-constructed object |
| `Messages.RoundTrip` | gen-cpp/concolic_types.cpp:74-144 | reading `write(x)` followed by any suffix leaves exactly the suffix, with a value equal to `x` under its `operator==`; into a used object, exactly under the condition above |
| `Structs.OffsetCells` | gen-cpp/concolic_types.h:93-104 | conversion to the generic form is invertible and keeps `operator==` |
| `Structs.RelCells` | gen-cpp/concolic_types.h:145-152 | the same for `RelAddr` |
| `Structs.AddrCells` | gen-cpp/concolic_types.h:193-204 | the same for `AbsOrRelAddr` |
| `Structs.BreakpointCells` | gen-cpp/concolic_types.h:245-252 | the same for `Breakpoint` |
| `Structs.ModuleInfoCells` | gen-cpp/concolic_types.h:293-300 | the same for `ModuleInfo` |
| `Structs.CodeBlockCells` | gen-cpp/concolic_types.h:345-356 | the same for `CodeBlock` |
| `Structs.ExceptionCells` | gen-cpp/concolic_types.h:393-398 | the same for `Exception` |
| `Structs.StructRoundTrip` | gen-cpp/concolic_types.cpp:74-825 | each of the seven structs, written between any two byte strings and read into a fresh object, is equal to the original under its own `operator==` and leaves exactly the suffix |
| `Structs.StaleModuleinfoStays` | gen-cpp/concolic_types.cpp:682-689 | a block without module information read into a used object keeps the old information, and is equal to what was sent only if there was none |
| `WireBytes.NumberBytes` | gen-cpp/concolic_types.cpp:129 | the bytes of a 16-, 32- or 64-bit number are its digits to the base 256, the highest first, modulo its width, and no others |
| `WireBytes.StructBytes` | gen-cpp/concolic_types.cpp:123-825 | each of the seven structs, byte by byte: field ids, type codes, omitted fields and the final stop as numbers |
| `WireBytes.AbsoluteBytes` | gen-cpp/concolic_types.cpp:465-479 | a breakpoint at an absolute address, with the digits of both numbers |
| `WireBytes.SkippedWidths` | gen-cpp/concolic_types.cpp:110-112 | the widths by which types no struct here uses are skipped, and the codes that are none |
| `Independence.UnknownFieldIgnored` | gen-cpp/concolic_types.cpp:110-112 | a field with an unknown id, or a known id and another type, inserted anywhere changes nothing |
| `Independence.NeighboursCommute` | gen-cpp/concolic_types.cpp:92-115 | neighbouring fields can be exchanged unless the same case reads both, which generates all permutations of fields that occur once |
| `Independence.ReadFieldwise` | gen-cpp/concolic_types.cpp:87-115 | a field that occurs at most once is read independently of all others |
| `Independence.AlikeMeanTheSame` | gen-cpp/concolic_types.cpp:302-369 | messages that differ, at any level of nesting, only in the order of fields occurring once and in unknown fields mean the same to a reader, whatever it reads into |
| `Independence.AlikeReadTheSame` | gen-cpp/concolic_types.cpp:658-695 | and are read to the same value from any streams, each reader ending behind its own message |
| `Freshness.ReadIsTidy` | gen-cpp/concolic_types.cpp:74-121 | from any bytes whatever, a reader leaves every field it did not set as it was in the fresh object, at every level |
| `Freshness.ReadBreakpointIsFresh` | helpers.cpp:21-25 | every breakpoint read from any stream is in the domain on which the orders are strict weak |
| `Streams.Reader.ReadStruct` | gen-cpp/concolic_types.cpp:74-121 | the loop over fields computes the specified reading, fails exactly where that does, and returns the number of bytes consumed |
| `Streams.Reader.ReadCase` | gen-cpp/concolic_types.cpp:92-115 | the `switch`: a known field of the expected type is read into its place, any other skipped |
| `Streams.Reader.ReadSet` | gen-cpp/ConcreteEvaluator.cpp:612-628 | the loop over the elements of a set reads each into a fresh object, in order |
| `Streams.Reader.ReadMap` | gen-cpp/ConcreteEvaluator.cpp:1079-1093 | the loop over the entries of a map |
| `Streams.Reader.ReadValue` | gen-cpp/concolic_types.cpp:645-700 | reading a value of any type, with the transfer count |
| `Streams.Reader.SkipValue` | gen-cpp/concolic_types.cpp:110-112 | `skip` computes the specified position and count, or throws exactly where none exists |
| `Streams.Writer.WriteStruct` | gen-cpp/concolic_types.cpp:123-144 | the fields are appended in order, optional ones only when set, then a stop; returns the number of bytes appended |
| `Streams.Writer.WriteSet` | gen-cpp/ConcreteEvaluator.cpp:651-662 | a set is appended with element type, size and elements |
| `Streams.Writer.WriteMap` | gen-cpp/ConcreteEvaluator.cpp:1128-1137 | a map is appended with its types, size and entries |
| `Streams.Writer.WriteValue` | gen-cpp/concolic_types.cpp:702-723 | writing appends exactly the encoding and returns its length, so reading back returns the same count |
| `Streams.WrappedIsModulo` | gen-cpp/concolic_types.cpp:77-89 | adding counts in 32 bits gives the exact sum modulo 2^32, so equal counts stay equal in `uint32_t` |
| `Rpc.HeaderRoundTrip` | gen-cpp/ConcreteEvaluator.cpp:1224-1236 | a message header is read back as written, and ends where it should |
| `Rpc.MessageArrives` | gen-cpp/ConcreteEvaluator.cpp:1238-1272 | a message placed anywhere in a stream is found there, header and body |
| `MessageBytes.BreakpointRequests` | gen-cpp/ConcreteEvaluator.cpp:57-74 | the requests of `addBreakpoint` and `delBreakpoint`, header, names and arguments byte by byte |
| `MessageBytes.RunRequest` | gen-cpp/ConcreteEvaluator.cpp:646-671 | that of `executeUntilEvent` |
| `MessageBytes.StopEventBytes` | concolic.thrift:46-53 | the two stop events are the numbers 0 and 3 |
| `MessageBytes.PlainRequests` | gen-cpp/ConcreteEvaluator.cpp:418-431 | those of the three methods without arguments |
| `MessageBytes.BreakpointReplies` | gen-cpp/ConcreteEvaluator.cpp:136-150 | the replies of `addBreakpoint` and `delBreakpoint`: nothing, or the exception in field 1 |
| `MessageBytes.ListReply` | gen-cpp/ConcreteEvaluator.cpp:502-527 | the reply of `getBreakpoints`: the set in field 0, breakpoint after breakpoint |
| `MessageBytes.RunReply` | gen-cpp/ConcreteEvaluator.cpp:743-757 | that of `executeUntilEvent` |
| `MessageBytes.BlockReply` | gen-cpp/ConcreteEvaluator.cpp:919-937 | that of `getCodeBlock` |
| `MessageBytes.ContextReply` | gen-cpp/ConcreteEvaluator.cpp:1120-1146 | that of `getContext` |
| `MessageBytes.ExceptionReplies` | gen-cpp/ConcreteEvaluator.cpp:1604-1632 | an exception of the other four: in field 1 where it is declared, else as an application exception of kind 0 |
| `MessageBytes.OtherReply` | gen-cpp/ConcreteEvaluator.cpp:1614-1624 | any other exception: an application exception of kind 0 with the text of `what()` up to its first NUL |
| `MessageBytes.RefusedReply` | gen-cpp/ConcreteEvaluator.cpp:1568-1580 | an unknown name: one of kind 1 with that name |
| `Strays.StrayMessageSkipped` | gen-cpp/ConcreteEvaluator.cpp:1364-1373 | a client skips a message of another kind or method and reads the result from what follows; one that is both it skips twice |
| `Strays.EmptyResult` | gen-cpp/ConcreteEvaluator.cpp:1380-1384 | an empty result is nothing for a `void` method, and MISSING_RESULT for any other |
| `Strays.KindsServed` | gen-cpp/ConcreteEvaluator.cpp:1565-1582 | only calls, one-way ones too, are served; any other kind closes the connection |
| `Strays.OlderHeader` | gen-cpp/ConcreteEvaluator.cpp:1245 | a header of the older form, which begins with the name, is read as well |
| `Strays.OtherVersion` | gen-cpp/ConcreteEvaluator.cpp:1245 | a header of another version is refused |
| `Strays.ThirdByteIgnored` | gen-cpp/ConcreteEvaluator.cpp:1245 | the third byte of the version word does not matter |
| `Transparency.SentResultIsSent` | gen-cpp/ConcreteEvaluator.cpp:919-937 | the `else if` between result and exception makes no difference to what the processor writes |
| `Transparency.RequestServed` | gen-cpp/ConcreteEvaluator.cpp:1565-1638 | a request of a method the processor has reaches the handler with its arguments, and the outcome is answered under the request's sequence number |
| `Transparency.PassedEqual` | gen-cpp/ConcreteEvaluator.cpp:57-69 | the arguments the handler gets are `==` to those the client passed |
| `Transparency.ReplyReceived` | gen-cpp/ConcreteEvaluator.cpp:1464-1503 | the client makes of a reply the value, the declared exception, or an application exception with the text of any other, whatever the handler did |
| `Transparency.UnknownMethodAnswered` | gen-cpp/ConcreteEvaluator.cpp:1565-1582 | a call of an unknown method is read to its end, changes no state, and reaches the caller as UNKNOWN_METHOD |
| `Transparency.RemoteIsDirect` | gen-cpp/ConcreteEvaluator.cpp:1218-1222 | one remote call on a drained connection: the client sees what the handler does, and the connection is drained again |
| `Transparency.SessionIsDirect` | gen-cpp/ConcreteEvaluator.cpp:1218-1563 | any sequence of remote calls over one connection gives the answers, and leaves the handler in the state, of the same calls made on the handler itself |
| `Transparency.NeverMissingResult` | gen-cpp/ConcreteEvaluator.cpp:1376-1384 | over a reply of this processor no client raises MISSING_RESULT, or a protocol exception, whatever the handler does |
| `Endpoints.TakeHeader` | gen-cpp/ConcreteEvaluator.cpp:1238-1246 | `readMessageBegin` as it runs, on the four bytes of the version word and the older form without one: header, position and failure are those of the specification |
| `Endpoints.WriteResult` | gen-cpp/ConcreteEvaluator.cpp:919-937 | the result writer as it runs |
| `Endpoints.WriteOutcome` | gen-cpp/ConcreteEvaluator.cpp:1604-1632 | the `try` and its two `catch` clauses: the message written is the specified reply |
| `Endpoints.Process` | gen-cpp/ConcreteEvaluator.cpp:1565-1638 | reads one message, dispatches and answers it: new state, position and output are those of the specification; throws exactly where it does |
| `Endpoints.Send` | gen-cpp/ConcreteEvaluator.cpp:1224-1236 | appends exactly the request |
| `Endpoints.Recv` | gen-cpp/ConcreteEvaluator.cpp:1464-1503 | returns or throws exactly the specified answer and stops where it ends |
| `Service.ServiceIsDirect` | gen-cpp/ConcreteEvaluator.cpp:1218-1563 | the same for the six methods and this processor's map: any sequence of calls of them is the same calls made on the handler |
| `RemoteDebugger.ListingUnique` | gen-cpp/ConcreteEvaluator_server.cpp:76-90 | the sorted set of the active breakpoints is unique, so the handler's loop fills it in whatever order |
| `RemoteDebugger.ResumeAlike` | gen-cpp/ConcreteEvaluator_server.cpp:92-120 | one run to the next stop: the event is that of the reference debugger, and both stand at the same place, with the same table and recorded block |
| `RemoteDebugger.HandlerObedient` | gen-cpp/ConcreteEvaluator_server.cpp:25-151 | one remote addition, deletion, listing, run or code block leaves the handler alike to the reference debugger and tells the client what it would say |
| `RemoteDebugger.RemoteSession` | gen-cpp/ConcreteEvaluator_server.cpp:25-151 | a remote session of additions, deletions, listings, runs to the next stop and code blocks in any order, over one connection, from any point at which the two stand alike: the client is told every exception, event, snapshot and block the reference debugger would report, and both end at the same place with the same tables |
| `RemoteDebugger.FirstSession` | gen-cpp/ConcreteEvaluator_server.cpp:25-151 | so does every session from before the program has run, with any tables |
| `RemoteDebugger.TableCommandsReady` | gen-cpp/ConcreteEvaluator_server.cpp:25-90 | additions, deletions and listings meet its conditions always |
| `RemoteDebugger.FetchShowsCode` | gen-cpp/ConcreteEvaluator_server.cpp:92-131 | after a run that stops in a contiguous block, `getCodeBlock` tells the address of the block the reference debugger is in and the bytes of its instructions |
| `Service.ServedMethod` | gen-cpp/ConcreteEvaluator.h:752-757 | each of the six methods is dispatched to under its own name, and its structs have distinct field ids at every level |
| `Service.AnyRequestKeepsTablesValid` | gen-cpp/ConcreteEvaluator_server.cpp:25-74 | whatever bytes a request holds, adding or deleting the breakpoint read from it keeps the deferred table a map under `operator<` |
| `Service.PassedBreakpoint` | gen-cpp/ConcreteEvaluator.cpp:57-69 | the breakpoint a client passes reaches the handler `==` to it, with the same count, and resolves as it would have on the client's side |
| `Service.StopEventsArrive` | gen-cpp/ConcreteEvaluator.cpp:669-693 | the stop events the handler gets are the set the client passed |
| `Service.RegistersArrive` | gen-cpp/ConcreteEvaluator.cpp:1154-1216 | the register map the client gets is the one the handler filled in, whatever the client's map held before |
| `Service.RegistersLast` | gen-cpp/ConcreteEvaluator.cpp:1079-1093 | that map has the keys sent, each with the value sent last |
| `Snapshot.SnapshotReceived` | gen-cpp/ConcreteEvaluator.cpp:1349-1385 | the reply of `getBreakpoints` reaches the client as one value, whatever it is read into |
| `Snapshot.ClientSetRestores` | gen-cpp/ConcreteEvaluator.cpp:531-583 | the set the client's loop builds from it by `operator<` has one element for every active breakpoint, `==` to the server's, and re-adding its elements in any order to tables with nothing active rebuilds the active table |

## Left out

- The instrumentation engine itself: block discovery, machine code of clean calls, real suspension and flush timing, handles and memory of modules. The assumptions above stand for it.
- Command-line options, `fastforward_opt`, printing, spawning of threads, process exit, `clean_call`.
- The window before the first suspension, when `stop_events` is still empty.
- Extraction of register values by `getContext`; its map of strings is carried by the wire layer.
- The concurrent client; sockets, buffering, processor event handlers, the null, factory and multi-interface classes.
- Failure inside the load callback: a symbol that does not resolve there throws into the engine, an address outside the module stops the process. `Evaluator.Evaluator.ModuleLoaded` says exactly when this happens and promises nothing then.
- Recursion-depth limits, message-size limits and strict-read mode of the protocol library, which is not part of this model; it follows the Apache Thrift Binary Protocol. A type code the protocol does not define is a failure to skip.
- Wording of handler exceptions: `Resolve.Fault` tells them apart, and the wire layer carries any text.
- Evaluator.Evaluator.GetBreakpoints: walks the table in no particular order, because the set it fills does not depend on it.
- Resolve.LocateThenResolve: the signed subtraction `addr - base` overflows in C++ for far-apart addresses; the model wraps it to 64 bits.
- Wakeups.NoLostOrStaleWakeup: promptness is sufficient for the balance of signals over a whole run. Whether a request can take the error exit is decided exactly, for any number of threads, by `ErrorExits.ExitsExactly`.
- Refinement.FirstStopAgrees: for a whole sequence of blocks and loads the two assumptions are sufficient; they are exact for each block and for each load by `Refinement.StraightLineExactly` and `Refinement.ApartExactly`.
- RemoteDebugger.RemoteSession: no module is loaded during the session's runs, and each run comes to a stop (a call that meets none never returns). `Refinement` and `Sessions` have loads. A breakpoint added inside the block the program is stopped in must be deleted before the next run; by `Resumption.ResumedExactly` it could be missed.
- Lockstep.RequestStops: the thread loads no module in that request and runs each block to its end.
- Evaluator.Evaluator.GetCodeBlock: a string copied from a negative range is undefined in C++; the model takes the `std::length_error` of the common libraries.
- Streams.Reader.ReadStruct: transfer counts are exact numbers; the `uint32_t` of the program is their residue by `Streams.WrappedIsModulo`.
- Codec.ReadStanding: lists, booleans, bytes, 16-bit numbers and doubles occur in no struct here and are only skipped.
- Transparency.SessionIsDirect: a handler is a function of its state and arguments; the strings and collections it yields along the session are assumed shorter than 2^31.
- Transparency.ReplyReceived: the client object read into is taken to hold no set flags in the result struct, as the generated client constructs it.
