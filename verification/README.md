# Verified models of DataCrumbs

DataCrumbs records kernel and user events, streams them to a compressed trace and rebuilds call trees
from it. This project models the parts of that path whose correctness does not depend on the operating
system, in the form the code has (objects and arrays updated in place, maps reassigned by handlers,
loops), and proves what they promise for every input, every run and every interleaving.

`dafny verify dfyconfig.toml` checks everything.

| files | what they model |
|---|---|
| `call_forest.dfy`, `call_forest_theorems.dfy`, `call_forest_aggregation.dfy`, `call_forest_cut.dfy`, `call_graph.dfy` | the call-forest builder of `tools/callgraph_vis.cpp`: what its stack means, its theorems, what `--aggregate` and the depth cut do, and the imperative program over node objects |
| `path_hash.dfy`, `tracer.dfy`, `tracer_history.dfy`, `tracer_theorems.dfy`, `tracer_maps.dfy` | the in-kernel tracer in trace mode: the path hash and its memo, the machine over BPF maps, what every map means in terms of the calls made so far, theorems about traces, and the handlers updating the maps |
| `profile.dfy`, `profile_overflow.dfy`, `profile_maps.dfy` | profile mode: counters per thread, event and interval, exactly when they lose something, the server's polling and final drain |
| `chrome_writer.dfy` | the trace writer: clients, one worker, queue, mutexes and condition variable as an interleaving machine |
| `validator_pool.dfy` | the probe validator's worker pool, for any number of workers |
| `base64.dfy`, `path_filter.dfy` | URL-safe base64 and the path filter of `utils.h` |
| `zlib_compressor.dfy` | the deflate output buffer, with deflate as an abstract step |
| `aggregate_trace.dfy` | the chunked line loop and running statistics of `tools/aggregate_trace.cpp` |
| `number_text.dfy`, `probe_names.dfy`, `probe_generator.dfy`, `probe_server.dfy` | from an ELF symbol to `name:offset`, event id, program name and back |
| `common.dfy` | small shared definitions |

The pattern is the same everywhere. A function or machine says what a step does; a definition that never
mentions the step's data structures says what the result should be (the latest earlier event still
running, the latest call of a kind, the multiset of tasks, the standard's encoding); lemmas prove the two
equal over all inputs or runs; and the imperative methods are proved against the functions. What both
sides build on (an alphabet, a cast, a digit, a constant) is pinned by a lemma of its own, written out in
literals.

## What the proofs found

- With `--aggregate` an event is shown exactly when it and all its ancestors are the first of their name
  under their parent (`AggregateShowsFirsts`): a call merged into an earlier sibling stays on the stack, so
  its own callees are listed under a node that no list shows (`MergedTraceLosesCall` is an instance).
- The depth cut truncates the forest exactly when every event deeper than the cut starts before its
  ancestor at the cut depth ends (`CutRightExactly`, `CutTruncatesForest`). Nested traces meet this for
  every cut (`NestedIsClear`); in a crossing trace a deep event can become a root (`CrossingPromotes`). A
  negative cut still keeps the roots.
- An open whose path is not included leaves no entry, so its exit is reported with the path and start
  time of an earlier open, and later reads of its descriptor with that path
  (`OpenUsesItsOwnPath` says exactly when, `ExcludedOpenTakesStalePath` is an instance).
- The failure counter wraps at 2^32 (`Accounting` says exactly when the totals are off). Profile counters
  wrap at 2^64, and totals are right exactly when what is added between two takings stays below that
  (`ConservationExactly`).
- `compress` casts the length to 32 bits: it feeds all of its input exactly when that fits.
- `dur * dur` overflows exactly above 46340 (`SquareFits`), and one such duration makes the sum of squares
  too small for good (`SquaresExact`), so that the variance can be negative.
- The base64 decoder counts in an `int`: it gives back what was encoded exactly below 2^31 characters
  (`RoundTripExactly`).
- The path filter checks the shape of UTF-8 only: overlong forms and surrogates pass (`OverlongPasses`),
  and the output is UTF-8 exactly when the input has none of them among what passes (`OutputWellFormed`).
- The generator drops a function whose combined name was counted before, and different functions of
  different binaries can have the same one (`DifferentFunctionDropped`); every other listed symbol is
  attached at its address (`ListedSymbolAttached`, for custom ids apart from the counter's).
- A custom probe whose id range overlaps the counter's takes over a function's category entry. Then the
  server either misses the function or attaches its program where the custom function says; `RebuildExactly`
  says which (`OverlapLosesFunction`, `OverlapMovesFunction` are instances).
- Program names are a shortened name followed by the id, so they are distinct up to 10000 functions
  (`FewProgramsDiffer`), and with 10001 two can be the same (`ProgramNamesCanCollide`;
  `SameNameExactly` says when).
- With offsets asked for, a function symbol whose name is empty or holds a colon makes the explorer read
  the first element of an empty set (`ExtractSymbols`, result `ok`).

Where comments and code disagree the model follows the code: the macro that skips small events speaks of
one millisecond, but the threshold is a build parameter; the worker pool is announced as four threads, but
takes the hardware's number; the key of `file_map` is declared as the text, but starts at the length field
before it, so that the last four bytes of the text are not part of it (`KeyDeterminesHash` shows this to be
harmless).

## Model

| member | source | states |
|---|---|---|
| CallForest.ParentIsLatestCover | tools/callgraph_vis.cpp:365-428 | for input sorted by start, an event's parent on the stack is exactly the latest earlier kept event whose end is after its start, nested or not, and it is a root exactly when there is none |
| CallForest.DepthIsChainLength | tools/callgraph_vis.cpp:369-383 | the open calls are exactly the chain of parents; the depth is its length and one more than the parent's |
| CallForestTheorems.SiblingsDisjoint | tools/callgraph_vis.cpp:365-428 | two kept events with the same parent, or two roots, never overlap |
| CallForestCut.CutRightExactly | tools/callgraph_vis.cpp:373-383 | the cut keeps exactly the events whose uncut depth does not exceed it if and only if every deeper event starts before its ancestor at the cut depth ends; for every event list and prefix of it |
| CallForestCut.CutDropsExactlyTheDeep | tools/callgraph_vis.cpp:373-383 | under that condition no surviving event changes its parent or depth |
| CallForestCut.CutTruncatesForest | tools/callgraph_vis.cpp:365-428 | the cut forest is the uncut forest truncated at that depth if and only if the condition holds; then the aggregated forest is truncated too, and the excluded time is the time of precisely the deeper events |
| CallForestCut.NestedIsClear | tools/callgraph_vis.cpp:365-383 | a nested trace meets the condition for every cut |
| CallForestCut.CrossingPromotes | tools/callgraph_vis.cpp:377-383 | a sorted crossing trace where the cut at 0 makes a depth-2 event a root, while the cut at 1 meets the condition |
| CallForestTheorems.ExclusiveConserved | tools/callgraph_vis.cpp:76-88 | over every forest the exclusive times sum to the times of the roots |
| CallForestTheorems.ExclusiveNonNegative | tools/callgraph_vis.cpp:76-88 | in a nested sorted trace without aggregation no exclusive time is negative (but for a childless event of negative duration) |
| CallForestTheorems.AggregateExclusiveNonNegative | tools/callgraph_vis.cpp:76-88 | nor with aggregation, if no duration is negative |
| CallForestTheorems.CompareOrders | tools/callgraph_vis.cpp:105-113 | the comparator is a total order: earlier starts first, of equal starts the longer call |
| CallForestTheorems.SortingNestsLaminarTraces | tools/callgraph_vis.cpp:105-113 | the comparator's order, with its tie-break, turns any laminar set of intervals into a sorted, nested trace |
| CallForestAggregation.FirstsAreDistinct | tools/callgraph_vis.cpp:385-396 | an aggregated list has each name among the owner's kids exactly once |
| CallForestAggregation.FirstsExact | tools/callgraph_vis.cpp:385-396 | a kid is an entry of the aggregated list if and only if no earlier kid has its name |
| CallForestAggregation.MembersExact | tools/callgraph_vis.cpp:385-406 | an entry stands for exactly the kept events of its name whose stack parent owns the list, each once |
| CallForestAggregation.AccountedOnce | tools/callgraph_vis.cpp:385-406 | every kept event is accounted to exactly one entry, in its own parent's list |
| CallForestAggregation.AggregationKeepsTime | tools/callgraph_vis.cpp:385-396 | the entries of an aggregated list hold together exactly the time of all kids merged into it |
| CallForestAggregation.ForestShowsListed | tools/callgraph_vis.cpp:398-425 | the forest shows exactly the events that are entries of their parent's list, and so on up to a root |
| CallForestAggregation.PlainListsAll | tools/callgraph_vis.cpp:398-425 | without aggregation every kept event is shown |
| CallForestAggregation.AggregateShowsFirsts | tools/callgraph_vis.cpp:385-425 | with aggregation an event is shown if and only if it and all its ancestors are kept and the first of their name under their parent |
| CallForestAggregation.MergedCallsHideTheirKids | tools/callgraph_vis.cpp:385-406 | so nothing called from a merged call is shown |
| CallForestAggregation.MergedTraceLosesCall | tools/callgraph_vis.cpp:385-406 | a sorted, nested, uncut trace of four calls of which the aggregated forest shows three |
| CallGraph.MinMaxExact | tools/callgraph_vis.cpp:388-389 | the folded minimum and maximum are durations of members and bound them all |
| CallGraph.BookStep | tools/callgraph_vis.cpp:385-425 | the declarative lists and counters change from event to event as the loop changes its arrays |
| CallGraph.Load | tools/callgraph_vis.cpp:321-336 | one fresh node per event, with count 1 and its duration as minimum and maximum |
| CallGraph.FindByName | tools/callgraph_vis.cpp:386-395 | finds the first entry with the name |
| CallGraph.Account | tools/callgraph_vis.cpp:388-391 | adds a call to an entry's counters |
| CallGraph.Attach | tools/callgraph_vis.cpp:385-424 | merges a call into the first entry of its name or appends it |
| CallGraph.PlaceCall | tools/callgraph_vis.cpp:373-425 | one call's effect on lists, counters and depths of all nodes |
| CallGraph.PopEnded | tools/callgraph_vis.cpp:369-371 | the stack array keeps exactly the calls that have not ended |
| CallGraph.Turn | tools/callgraph_vis.cpp:365-428 | one turn of the loop over nodes and stack array |
| CallGraph.Build | tools/callgraph_vis.cpp:359-428 | after the loop all lists, counters, depths and the excluded time are the declarative ones |
| CallGraph.CalculateExclusiveTimes | tools/callgraph_vis.cpp:76-88 | every node of the forest ends with its time less its children's, and no other node is disturbed |
| CallGraph.CallGraphOf | tools/callgraph_vis.cpp:321-433 | for every event list, cut and aggregation flag: every node's depth, child list, count, sum, minimum and maximum, the roots, the excluded time and the exclusive times of all shown events are the declarative ones |
| PathHash.HashStr | src/datacrumbs/server/bpf/common.h:32-39 | the loop computes 5381 followed by the first min(len,128) signed bytes as base-33 digits, modulo 2^32 (a negative length hashes 128) |
| PathHash.HashIsDjb2 | src/datacrumbs/server/bpf/common.h:32-39 | that is the hash of the literature, from 5381 on, each byte as a signed character, of the first min(len,128) bytes, or of 128 after a failed copy, modulo 2^32 |
| PathHash.OneByteMatters | src/datacrumbs/server/bpf/common.h:32-39 | two texts that differ in exactly one hashed byte, wherever it is, have different hashes |
| PathHash.KeyDeterminesHash | src/datacrumbs/server/bpf/common.h:41-50 | the memo's key, although it leaves out part of the text, determines the hash |
| PathHash.HashAndStore | src/datacrumbs/server/bpf/common.h:41-50 | with a memo of true hashes the result is the hash, and the memo stays true |
| PathHash.StartDeterminesHash | src/datacrumbs/server/bpf/common.h:41-50 | for successfully read texts the part of the text in the key determines the hash, whatever length is in front of it |
| PathHash.UsdtHashes | src/datacrumbs/server/bpf/common.h:265-286 | a USDT exit that reads both its texts gets their true hashes and leaves the memo true for all such texts, although it stores the second under the length of the first |
| PathHash.PathUnderItsLength | src/datacrumbs/server/bpf/common.h:41-50 | an open of such a text finds or stores its true hash in that memo too, and keeps it so |
| TracerHistory.RunAgrees | src/datacrumbs/server/bpf/common.h:115-187 | in every run each map holds exactly what the latest relevant calls say: who is traced and since when, latest traced entry times, descriptors, path hashes; the output and the failure counter are those of the calls that owed a record |
| TracerHistory.NamesStep | etc/datacrumbs/plugins/custom_probes/sys_io/sysio.bpf.c:259-287 | an open entry leaves the true hash of its path under its key, whatever the memo held |
| TracerHistory.FilesStep | etc/datacrumbs/plugins/custom_probes/sys_io/sysio.bpf.c:297-332 | an open exit that qualifies, gets room and returns a positive descriptor records the path of the latest recorded entry for it |
| TracerHistory.MemoStep | src/datacrumbs/server/bpf/common.h:41-50 | the memo holds exactly the hashes of the paths opened and not removed since |
| TracerTheorems.Accounting | src/datacrumbs/server/bpf/macros.bpf.h:164-172 | records submitted plus failures counted equal qualifying exits, starts and stops; the counter is exact if and only if fewer than 2^32 were lost |
| TracerTheorems.FailuresUnderKey | src/datacrumbs/server/bpf/common.h:92-107 | the lost records are counted under key 2, modulo 2^32 |
| TracerTheorems.StartStopRecords | src/datacrumbs/server/bpf/init.bpf.c:3-48 | a start is reported as event 1, from when its thread came to be traced, a stop as event 2 |
| TracerTheorems.ThreadIsLowerHalf | src/datacrumbs/server/bpf/common.h:124-124 | the thread is the lower half of the identifier |
| TracerTheorems.OutputInOrder | src/datacrumbs/server/bpf/macros.bpf.h:164-187 | the output is, in order, the records of the calls that got room |
| TracerTheorems.ReportedInOrder | src/datacrumbs/server/bpf/macros.bpf.h:164-172 | those calls are exactly the ones that owed a record and got room, each once, in order |
| TracerTheorems.ExitRecord | src/datacrumbs/server/bpf/macros.bpf.h:174-183 | an exit's record starts at the latest traced entry of the same id and event, ends at the exit (modulo 2^64; exactly under a monotone clock), is not below the threshold, and both calls were traced |
| TracerTheorems.TracedHasLineage | src/datacrumbs/server/bpf/common.h:352-367 | a traced call's thread descends from a started one through forks by traced threads, without a stop in between |
| TracerTheorems.LineageIsTraced | src/datacrumbs/server/bpf/init.bpf.c:3-48 | and every such descent makes the call traced |
| TracerTheorems.AttributedPath | etc/datacrumbs/plugins/custom_probes/sys_io/sysio.bpf.c:42-81 | the hash of a read, write or metadata event is that of the path named at the latest recorded open, by the same thread id, whose return value modulo 2^32 is the descriptor, positive and below 2^31, of the call's latest recorded entry |
| TracerTheorems.AttributedNothing | etc/datacrumbs/plugins/custom_probes/sys_io/sysio.bpf.c:62-78 | without such calls the hash is 0 |
| TracerTheorems.DescriptorRecorded | etc/datacrumbs/plugins/custom_probes/sys_io/sysio.bpf.c:316-329 | an open that qualifies and gets room is recorded for exactly the positive descriptor it returned |
| TracerTheorems.FailedOpenUnrecorded | etc/datacrumbs/plugins/custom_probes/sys_io/sysio.bpf.c:322-323 | an open that fails with an error number is recorded for no descriptor and changes no file |
| TracerTheorems.AsIntExact | etc/datacrumbs/plugins/custom_probes/sys_io/sysio.bpf.c:322-322 | the return value is read as a 32-bit C int |
| TracerTheorems.RecordedOpenHasEntry | etc/datacrumbs/plugins/custom_probes/sys_io/sysio.bpf.c:316-329 | a recorded open always has a recorded entry that named a path |
| TracerTheorems.OthersIgnoreMemo | etc/datacrumbs/plugins/custom_probes/sys_io/sysio.bpf.c:42-81 | no handler but the open entry depends on the memo of hashes |
| TracerTheorems.OpenIgnoresMemo | etc/datacrumbs/plugins/custom_probes/sys_io/sysio.bpf.c:279-283 | whatever true hashes the memo holds, an open entry leaves the same in all other maps |
| TracerTheorems.OpenUsesItsOwnPath | etc/datacrumbs/plugins/custom_probes/sys_io/sysio.bpf.c:259-287 | an open exit uses the path of the entry before it if and only if that entry was traced and included |
| TracerTheorems.ExcludedOpenTakesStalePath | etc/datacrumbs/plugins/custom_probes/sys_io/sysio.bpf.c:271-277 | an instance where an excluded open and a read are reported for an earlier path |
| TracerMaps.Maps.NeedTracing | src/datacrumbs/server/bpf/common.h:115-129 | traced means every process, or a thread in the map with a nonzero id |
| TracerMaps.Maps.MarkFailedEvents | src/datacrumbs/server/bpf/common.h:92-107 | initialises and increments the 32-bit counter |
| TracerMaps.Maps.ReserveAndSubmit | src/datacrumbs/server/bpf/macros.bpf.h:164-187 | submits the record or counts the failure |
| TracerMaps.Maps.GenericEntry | src/datacrumbs/server/bpf/common.h:133-145 | the handler's effect on all maps |
| TracerMaps.Maps.GenericExit | src/datacrumbs/server/bpf/common.h:168-187 | the handler's effect on output and counter |
| TracerMaps.Maps.GenericForkExit | src/datacrumbs/server/bpf/common.h:352-367 | enrols the child of a traced thread, then acts as an exit |
| TracerMaps.Maps.TraceStart | src/datacrumbs/server/bpf/init.bpf.c:3-28 | keeps an earlier start time, enrols the thread and reports it |
| TracerMaps.Maps.TraceStop | src/datacrumbs/server/bpf/init.bpf.c:29-48 | removes the thread and reports it |
| TracerMaps.Maps.SysioFdInit | etc/datacrumbs/plugins/custom_probes/sys_io/sysio.bpf.c:20-33 | the handler's effect on all maps |
| TracerMaps.Maps.SysioExit | etc/datacrumbs/plugins/custom_probes/sys_io/sysio.bpf.c:42-190 | data and metadata exits: record with attributed hash and, for data, the size |
| TracerMaps.Maps.SysioOpenEntry | etc/datacrumbs/plugins/custom_probes/sys_io/sysio.bpf.c:259-287 | the handler's effect on memo, names and entries |
| TracerMaps.Maps.SysioOpenExit | etc/datacrumbs/plugins/custom_probes/sys_io/sysio.bpf.c:297-332 | the handler's effect on files, output and counter |
| TracerMaps.Maps.Handle | src/datacrumbs/server/bpf/common.h:131-187 | after any sequence of handler calls the maps are the machine's state, so every theorem about runs holds of them |
| Profile.Conservation | src/datacrumbs/server/bpf/common.h:189-222 | over any interleaving of calls and drains, for every key: counters handed over plus counters in the map equal the number and total time of exits whose entry fell in the interval, modulo 2^64, and outright when the true total is below 2^64 |
| ProfileOverflow.ConservationExactly | src/datacrumbs/server/bpf/common.h:189-222 | they equal it outright if and only if what is added to the counter between two takings of it never reaches 2^64, for counts and for times |
| Profile.RunAgrees | src/datacrumbs/server/bpf/common.h:189-222 | the profile-mode maps follow the same history as in trace mode, the latest interval is that of the latest counted exit's entry or of the latest start's time, whichever came later, and conservation holds for every key at every step |
| Profile.LatestStep | src/datacrumbs/server/bpf/common.h:220-220 | every call keeps the latest interval that of the latest call that sets it |
| Profile.DrainConserves | src/datacrumbs/server/process/processing/general_event.h:49-82 | a drain moves counts without changing any total |
| Profile.DrainTakes | src/datacrumbs/server/process/processing/general_event.h:61-72 | a drain takes exactly the counters of its batch whose interval is up to the limit (all, for limit 0), and leaves every other as it is |
| ProfileMaps.EmptyMapHandedAll | src/datacrumbs/server/process/server.impl.cpp:663-669 | a run that ends with an empty map has handed over, for every key, the number and time of all exits before, modulo 2^64, and outright if and only if its counter never reached 2^64 between two takings |
| ProfileMaps.Maps.GenericExit | src/datacrumbs/server/bpf/common.h:189-222 | the handler's effect on counters and latest interval |
| ProfileMaps.Maps.Handle | src/datacrumbs/server/bpf/common.h:146-222 | keeps the maps a run |
| ProfileMaps.Maps.HandRipe | src/datacrumbs/server/process/processing/general_event.h:61-72 | hands over exactly the batch's counters of intervals up to the limit (all, without one) and lists their keys |
| ProfileMaps.Maps.Lookup1 | src/datacrumbs/server/process/processing/general_event.h:49-82 | -1 exactly when the lookup fails or finds nothing, and then nothing changes; otherwise the batch's ripe counters are handed over and deleted, no others |
| ProfileMaps.Maps.Poll | src/datacrumbs/server/process/server.impl.cpp:617-629 | drains, by one lookup of up to 1024 counters and up to the latest interval, exactly when there is a latest interval, the last turn saw one (nonzero) and it has changed since |
| ProfileMaps.Maps.FinalDrain | src/datacrumbs/server/process/server.impl.cpp:663-669 | terminates at the first lookup that fails or finds nothing; unless it failed the map is empty and everything counted before the drain has been handed over, modulo 2^64, and outright if and only if its counter never overflowed |
| ChromeWriter.InOrderKept | src/datacrumbs/server/process/writer/chrome_writer.cpp:53-59 | written, then in flight, then queued events always equal the pushed sequence in lock order |
| ChromeWriter.WakeupKept | src/datacrumbs/server/process/writer/chrome_writer.cpp:40-59 | a worker asleep with work or a stop always has a client that still owes it a notification |
| ChromeWriter.FileKept | src/datacrumbs/server/process/writer/chrome_writer.cpp:173-183 | the compressor's input is always the opening bracket, whole lines and at most one line in progress, although both threads write character by character |
| ChromeWriter.Safety | src/datacrumbs/server/process/writer/chrome_writer.cpp:193-219 | all invariants hold in every reachable state |
| ChromeWriter.PushesAccounted | src/datacrumbs/server/process/writer/chrome_writer.cpp:53-59 | each event has been pushed, or is about to be, exactly as often as pushes of it were begun |
| ChromeWriter.WritesAccounted | src/datacrumbs/server/process/writer/chrome_writer.cpp:61-183 | the main thread's direct writes, with the one under way, are those begun, in order |
| ChromeWriter.NothingExcluded | src/datacrumbs/server/process/writer/chrome_writer.cpp:40-59 | any number of clients, any idle one may begin a push and the main thread also a write or finalize, and waits may return for no reason |
| ChromeWriter.Finalized | src/datacrumbs/server/process/writer/chrome_writer.cpp:40-51 | when finalize returns the file is bracket, whole lines, bracket; the worker's lines are those of the events it has written, the main thread's those of its direct writes, each once and in order; everything pushed was written if and only if nothing was pushed after the worker exited |
| ChromeWriter.AllWritten | src/datacrumbs/server/process/writer/chrome_writer.cpp:40-51 | if once finalize has begun nobody begins to push or still waits for the mutex to push, everything pushed is written |
| ChromeWriter.SomeoneCanGoOn | src/datacrumbs/server/process/writer/chrome_writer.cpp:193-219 | no deadlock: unless all is at rest some thread can go on without a spurious wakeup |
| ChromeWriter.ComesToRest | src/datacrumbs/server/process/writer/chrome_writer.cpp:193-219 | without new calls and spurious wakeups every run is bounded by the work left |
| ChromeWriter.RestIsDone | src/datacrumbs/server/process/writer/chrome_writer.cpp:40-51 | at rest, a finalize that was begun has returned |
| ValidatorPool.PartitionKept | src/datacrumbs/validator/probe_validator.cpp:214-251 | queued, in-flight and finished tasks always partition the initial tasks as multisets |
| ValidatorPool.CounterLead | src/datacrumbs/validator/probe_validator.cpp:196-200 | the counter is always ahead of the stored names by exactly the workers between increment and append |
| ValidatorPool.Safety | src/datacrumbs/validator/probe_validator.cpp:203-264 | all invariants hold in every reachable state, for any number of workers |
| ValidatorPool.NothingExcluded | src/datacrumbs/validator/probe_validator.cpp:203-232 | any number of workers, and waits may return for no reason |
| ValidatorPool.NoneSleepsAfterNotify | src/datacrumbs/validator/probe_validator.cpp:257-264 | after notify_all no worker is ever blocked |
| ValidatorPool.Result | src/datacrumbs/validator/probe_validator.cpp:257-282 | after the join every task ran exactly once, the closing check finds equal counts, and the stored map is exactly the invalid tasks grouped by probe, without empty groups |
| ValidatorPool.GroupedExact | src/datacrumbs/validator/probe_validator.cpp:199-199 | grouping by probe loses and adds nothing |
| ValidatorPool.SomeoneCanGoOn | src/datacrumbs/validator/probe_validator.cpp:226-264 | no deadlock before the main thread returns |
| ValidatorPool.Terminates | src/datacrumbs/validator/probe_validator.cpp:226-264 | without spurious wakeups every run is bounded by the work it starts with |
| Base64.CharAndValue | src/datacrumbs/common/utils.h:14-26 | the two character tables are inverse to each other |
| Base64.AlphabetExact | src/datacrumbs/common/utils.h:14-18 | the characters are those of the standard's URL-safe table, in its order |
| Base64.TestVectors | src/datacrumbs/common/utils.h:29-68 | the standard's test vectors for one, two and three bytes, and one with the last two characters |
| Base64.DecodeEncode | src/datacrumbs/common/utils.h:29-113 | decoding an encoding gives back every byte sequence |
| Base64.RoundTrip | src/datacrumbs/common/utils.h:71-113 | also through the decoder that stops at the first foreign character |
| Base64.EncodeDecode | src/datacrumbs/common/utils.h:29-113 | encoding a decoding gives back the string if and only if it is all alphabet, its length is not 1 modulo 4 and its left-over bits are zero |
| Base64.Base64Encode | src/datacrumbs/common/utils.h:29-68 | the loop computes the standard's unpadded encoding |
| Base64.Base64Decode | src/datacrumbs/common/utils.h:71-113 | the loop, with its int count and its NUL-filled tail looked up as 255, decodes the longest alphabet prefix of the text (of as many characters as its length modulo 2^32, when that is below 2^31); undefined exactly when the count is negative and the prefix long enough for it to pass the lowest int |
| Base64.IntExact | src/datacrumbs/common/utils.h:73-73 | the length is cast to a 32-bit int |
| Base64.RoundTripExactly | src/datacrumbs/common/utils.h:29-113 | decoding gives back what was encoded if and only if the encoding is shorter than 2^31 |
| PathFilter.RemoveNonUtf8 | src/datacrumbs/common/utils.h:154-212 | the loop computes the filter |
| PathFilter.OneCharacter | src/datacrumbs/common/utils.h:159-172 | an ASCII character passes if and only if it is one of the 62 letters and digits or of "_-./" |
| PathFilter.PathsPass | src/datacrumbs/common/utils.h:159-172 | text of these characters passes unchanged |
| PathFilter.AcceptedExact | src/datacrumbs/common/utils.h:159-205 | what is taken from the front is exactly the one character there, a path character or a lead byte with its continuation bytes, and a byte is dropped if and only if there is none |
| PathFilter.FixedPoints | src/datacrumbs/common/utils.h:154-212 | idempotent; the identity exactly on accepted text |
| PathFilter.KeptPrefix | src/datacrumbs/common/utils.h:154-212 | f(x) = x implies f(x + y) = x + f(y) |
| PathFilter.SafeInJson | src/datacrumbs/common/utils.h:159-172 | the output needs no JSON escape, has only path characters among ASCII and no line feed |
| PathFilter.WellFormedText | src/datacrumbs/common/utils.h:173-205 | of well-formed UTF-8 only foreign ASCII is dropped, and the rest stays well-formed |
| PathFilter.Utf8CharDecodes | src/datacrumbs/common/utils.h:173-205 | the well-formed characters these theorems speak of are encodings of scalar values |
| PathFilter.EncodedIsUtf8Char | src/datacrumbs/common/utils.h:173-205 | and all of them |
| PathFilter.OutputWellFormed | src/datacrumbs/common/utils.h:173-205 | the output is well-formed UTF-8 if and only if every multi-byte character of the input that passes is |
| PathFilter.OverlongPasses | src/datacrumbs/common/utils.h:173-205 | an overlong form and a surrogate pass unchanged |
| ZlibCompressor.ZlibCompression.Deflate | src/datacrumbs/server/process/compress/zlib_compressor.h:52-60 | one deflate step into the buffer keeps file plus live buffer equal to everything produced |
| ZlibCompressor.ZlibCompression.WriteChunk | src/datacrumbs/server/process/compress/zlib_compressor.h:87-96 | one write of the whole live buffer, of which the file gets the prefix the file system takes; no write for an empty one |
| ZlibCompressor.MissingExact | src/datacrumbs/server/process/compress/zlib_compressor.h:87-96 | bytes are missing if and only if some write was short |
| ZlibCompressor.ZlibCompression.Compress | src/datacrumbs/server/process/compress/zlib_compressor.h:47-65 | terminates; feeds a prefix, all of the length modulo 2^32 exactly when deflate does not fail, and all of the data exactly when also the length is below 2^32 |
| ZlibCompressor.ZlibCompression.Flush | src/datacrumbs/server/process/compress/zlib_compressor.h:67-84 | terminates with an empty buffer; the file is everything produced if and only if every write was full; all writes but the last are of whole chunks |
| ZlibCompressor.Session | src/datacrumbs/server/process/compress/zlib_compressor.h:36-96 | a whole session feeds all pieces, each cast to 32 bits, in order (all of their bytes if and only if each is shorter than 2^32), and leaves everything produced in the file if and only if every write was full; all writes but the last are of whole chunks |
| AggregateTrace.SquareFits | tools/aggregate_trace.cpp:28-28 | the int square of a duration is right if and only if it is within 46340 |
| AggregateTrace.WrappedExact | tools/aggregate_trace.cpp:28-28 | a product is cut to a 32-bit int |
| AggregateTrace.SummaryExact | tools/aggregate_trace.cpp:18-31 | count and sum are exact, minimum and maximum are members and bound all |
| AggregateTrace.MeanInRange | tools/aggregate_trace.cpp:33-33 | min*count <= sum <= max*count |
| AggregateTrace.SquaresExact | tools/aggregate_trace.cpp:28-28 | the sum of squares is right if and only if all durations are within 46340 |
| AggregateTrace.VarianceNotNegative | tools/aggregate_trace.cpp:35-39 | count*sum_sq >= sum*sum when all durations are within 46340 |
| AggregateTrace.LongDurationOverflows | tools/aggregate_trace.cpp:28-28 | two durations of 46341 make it negative |
| AggregateTrace.TableExact | tools/aggregate_trace.cpp:103-103 | the table has exactly the keys that occur, each with the summary of its durations |
| AggregateTrace.StripExact | tools/aggregate_trace.cpp:78-80 | one carriage return at the end of a line is dropped, and nothing else |
| AggregateTrace.LineExact | tools/aggregate_trace.cpp:76-105 | a closing bracket, an empty line and an opening bracket on the first line hold no sample, any other line what it parses to; a last line without line feed may be an opening bracket |
| AggregateTrace.MoreText | tools/aggregate_trace.cpp:69-76 | reading more text completes lines behind those there are |
| AggregateTrace.Aggregator.DoLine | tools/aggregate_trace.cpp:76-105 | one line's effect: carriage return, first bracket, closing bracket and empty line |
| AggregateTrace.Aggregator.NextChunk | tools/aggregate_trace.cpp:68-108 | after any chunk the state is that of the text so far, split at once |
| AggregateTrace.Aggregator.Finish | tools/aggregate_trace.cpp:109-128 | the tail without line feed |
| AggregateTrace.Aggregate | tools/aggregate_trace.cpp:65-128 | for every way of cutting the text into chunks the table is that of the whole text split once |
| AggregateTrace.LastNewlineIrrelevant | tools/aggregate_trace.cpp:109-128 | a missing last line feed makes no difference |
| NumberText.ParseHex | src/datacrumbs/explorer/mechanism/elf_capture.cpp:97-104 | 64-bit hexadecimal printing then parsing is the identity |
| NumberText.ParseDecimal | src/datacrumbs/server/process/server.impl.cpp:108-108 | decimal printing then base-0 parsing is the identity on positive ids |
| NumberText.DigitsExact | src/datacrumbs/explorer/mechanism/elf_capture.cpp:97-104 | printing has lower-case digits, parsing takes both cases and nothing else |
| NumberText.ParseOctal | src/datacrumbs/server/process/server.impl.cpp:131-131 | a leading zero makes a number octal |
| NumberText.ParseLimits | src/datacrumbs/server/process/server.impl.cpp:131-131 | what follows the digits is ignored; numbers from 2^64 on and texts without digits are errors |
| ProbeNames.ColonExact | src/datacrumbs/generator/generator.cpp:115-124 | splitting at the first colon and joining is the identity, and the name part has no colon |
| ProbeNames.SplitJoined | src/datacrumbs/generator/generator.cpp:115-124 | splitting name:offset recovers both parts of a name without a colon |
| ProbeNames.Sanitize | src/datacrumbs/generator/mechanisms/uprobe_generator.h:48-51 | ten characters, dots and at signs replaced |
| ProbeNames.SanitizedExact | src/datacrumbs/generator/mechanisms/uprobe_generator.h:48-51 | the first ten characters, dots and at signs made underscores, all others unchanged |
| ProbeNames.EntryIsNoExit | src/datacrumbs/generator/mechanisms/uprobe_generator.h:63-82 | no entry program has the name of an exit program |
| ProbeNames.ExtractSymbols | src/datacrumbs/explorer/mechanism/elf_capture.cpp:68-133 | lists each line once for every function name that shows it, as name, or as name:offset for each address when offsets are asked for or a name has several; undefined exactly when offsets are asked for and a name is empty or has a colon |
| ProbeNames.SymbolShown | src/datacrumbs/explorer/mechanism/elf_capture.cpp:97-133 | every function symbol with a proper name that has to show its address is listed with it |
| ProbeNames.ShownIsSymbol | src/datacrumbs/explorer/mechanism/elf_capture.cpp:97-133 | what is listed with an address is the name and address of a function symbol |
| ProbeNames.NameShownBare | src/datacrumbs/explorer/mechanism/elf_capture.cpp:111-130 | the names listed are those of defined function symbols but "_init", "_fini" and "_start"; one that does not have to show an address is listed bare |
| ProbeNames.OffsetsExact | src/datacrumbs/explorer/mechanism/elf_capture.cpp:94-104 | the addresses collected for a name are those of its function symbols |
| ProbeGenerator.Generator.Run | src/datacrumbs/generator/generator.cpp:44-141 | ids, category map, programs and manual functions of all probes |
| ProbeGenerator.NumberAt | src/datacrumbs/generator/generator.cpp:75-84 | functions are numbered in order: a custom probe's from its start id, all others consecutively from 1000 |
| ProbeGenerator.CountedExact | src/datacrumbs/generator/generator.cpp:79-80 | by the number of functions before that are no custom probe's |
| ProbeGenerator.CombinedExact | src/datacrumbs/generator/generator.cpp:93-181 | the name under which a function counts, for each kind of probe |
| ProbeGenerator.PredefinedKept | src/datacrumbs/generator/generator.cpp:39-41 | ids 0 to 2 keep their predefined categories unless a custom probe takes them |
| ProbeGenerator.KeptExactly | src/datacrumbs/generator/generator.cpp:86-90 | a function keeps its category entry if and only if the last function with its id has the same names |
| ProbeGenerator.KeptWhenApart | src/datacrumbs/generator/generator.cpp:78-90 | with custom id ranges apart from the counter's every counted function keeps its entry |
| ProbeServer.RebuildOne | src/datacrumbs/server/process/server.impl.cpp:105-142 | the server's string steps compute the rebuilt program names and offset |
| ProbeServer.ManualProbes | src/datacrumbs/server/process/server.impl.cpp:104-185 | every manual function is attempted, unless a number does not parse; of its two probes the entry counts as successful if it links, the exit if it links behind it, and the others as failed |
| ProbeServer.RebuildExactly | src/datacrumbs/server/process/server.impl.cpp:108-142 | the server attaches a generated program at offset v if and only if the last function numbered with its id has a colon, the same shortened name and the offset v |
| ProbeServer.ThrowsExactly | src/datacrumbs/server/process/server.impl.cpp:108-131 | the attempt for a generated program throws if and only if there is something behind the colon that is no number below 2^64 |
| ProbeServer.RebuildsProgram | src/datacrumbs/server/process/server.impl.cpp:108-142 | with custom ids apart: a uprobe function with a colon has its program attached at v if and only if no earlier function counts under its name and its own offset is v |
| ProbeServer.SymbolAttachedAtItsValue | src/datacrumbs/server/process/server.impl.cpp:130-142 | a uprobe function that is a symbol's name and address is attached at exactly st_value if and only if no earlier function counts under its name |
| ProbeServer.ListedSymbolAttached | src/datacrumbs/server/process/server.impl.cpp:130-142 | every function symbol that has to show its address is listed with it, and attached there under the same condition |
| ProbeServer.RepeatedFunctionAttached | src/datacrumbs/server/process/server.impl.cpp:130-142 | when the same function of the same binary is dropped, its first occurrence is attached at its address |
| ProbeServer.OverlapLosesFunction | src/datacrumbs/generator/generator.cpp:81-90 | an overlapping custom id makes the server miss a function |
| ProbeServer.OverlapMovesFunction | src/datacrumbs/generator/generator.cpp:81-90 | or attach its program at the custom function's offset |
| ProbeGenerator.GeneratedNumber | src/datacrumbs/generator/generator.cpp:115-141 | a counted function gets a program if and only if it is a uprobe's and no earlier function counts under its name, and is left to be attached by hand if and only if it also has a colon |
| ProbeGenerator.PlainProgram | src/datacrumbs/generator/mechanisms/uprobe_generator.h:46-86 | a short plain name gives the programs name, id and "_entry" or "_exit"; the exit enrols forked children if and only if the name contains "fork" |
| ProbeGenerator.DifferentFunctionDropped | src/datacrumbs/generator/generator.cpp:125-129 | two functions of two binaries that count under one name, so that the second gets no program |
| ProbeGenerator.SameNameExactly | src/datacrumbs/generator/mechanisms/uprobe_generator.h:63-63 | two programs have the same name if and only if the longer id ends in the shorter one and the digits before it end the other function's shortened name |
| ProbeGenerator.FewProgramsDiffer | src/datacrumbs/generator/mechanisms/uprobe_generator.h:63-63 | with at most 10000 counted functions program names are distinct |
| ProbeGenerator.ProgramNamesCanCollide | src/datacrumbs/generator/mechanisms/uprobe_generator.h:63-63 | with one more they need not be: a probe of 10001 functions where the generated programs of the first and the last have the same name |

## Left out

Assumptions that the models make:

- BPF maps are never full, one handler call is atomic, and so is one drain call with respect to handlers; a batch delete of keys just looked up succeeds.
- Only open entries write the memo of hashes in the machine. `usdt_exit` (src/datacrumbs/server/bpf/common.h:265-286) writes it too, and hashes its second text under a key that still starts with the first text's length. As long as its reads succeed the memo stays right for every path read (`UsdtHashes`, `PathUnderItsLength`); after a failed read, whose negative length makes it hash 128 bytes, it need not.
- In profile mode only the generic exits move `latest_interval`. The exits of the sys_io plugin and of USDT probes also do, and the server's polling would see those too.
- The `LOOKUP_*_CALL` macros pass `&event_processor`; the model passes the processor.
- One thread per trace in the call-forest builder, as in the tool, which ignores pid and tid. `long long` and `int` fields of nodes are unbounded integers.
- `qsort` is not modelled; theorems that need an order assume it, and `SortingNestsLaminarTraces` says what the comparator's order gives.
- The `int` multiplication `dur * dur` wraps around, as compilers make it; the language leaves its overflow undefined. `SquaresExact` and `LongDurationOverflows` speak of such builds; what is said of durations within 46340 holds in every build.
- Event ids are unbounded natural numbers, and below 2^64 where they are printed and read again; in the code they are of type `int` (src/datacrumbs/generator/generator.h:87), and an overflow of the counter and negative ids are not modelled.
- deflate may do anything its documentation allows; ending a stream is assumed never to fail (the code would spin). A short write is modelled, an unopened file is not.
- One main thread writes directly and finalizes, as in the server; any number of others may push.

Parts of the repository that are not modelled:

- The sys_io plugin's profile counters (`sysio_profile`) and the USDT probes and counters (`new_value` is not initialised, so there is no defined sum).
- The search in the inclusion trie: its answer is a parameter of an open entry.
- The text of a trace line and the unsynchronised `index_` in it: every event carries the line it becomes.
- `bpf_map_lookup_and_delete_batch_compat`, skeleton loading, attachment, MPI, daemonising, ownership: foreign or operating-system effects. The server's removal of hashes it has read is the step `Forget`.
- White space and signs before a number in `std::stoul`; a name with a line feed in the fork test.
- `Stats` objects are values in the table (`AggregateTrace.Add`), updated by replacing them; the sums they hold are exact integers instead of doubles.
- Parsing of JSON and YAML: a line either holds a sample or does not. The square root is not taken.
- `find_nodes_by_name`, `print_tree`, DOT output, the `depth_cut.txt` log, CSV formatting, progress messages: formatting with little to prove.
- Programs of kprobes, syscalls and USDT probes: only the uprobe branch is rebuilt by the server.
- GzipChunkReader, libclang header capture, kallsyms, C templates beyond program names, the explorer's filters: left out as they only add easy members or foreign code.
