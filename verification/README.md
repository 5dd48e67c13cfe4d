# A verified model of the object server and its serialisation

This project models the four parts of osrv that carry state across calls, threads or reads, in Dafny, and proves what
they guarantee.

- **Simple Fast Serialisation** (`src/sfs.c` and its back ends). R values are trees; the writer makes a sequence of
  store calls, each denoting an 8-byte little-endian header and a payload; the reader is a pair of mutually recursive
  functions over bytes and the static scratch buffer. The writer and the reader are also written as the loops of the
  source, over four stores (buffer chain, descriptor, chunked HTTP, statistics) and three sources (memory, file, socket).
- **Object store, dependency tracker, event queue** (`src/obj.c`, `src/deps.c`, `src/evqueue.c`). Each linked list is a
  heap class; the three together, with their three mutexes, are a state machine over any number of threads, one step for
  each critical section or turn of the completion loop.
- **Worker pool** (`src/therver.c`). The sentinel ring is a heap class; workers, acceptors, mutex and condition are a
  state machine over any number of threads.
- **HTTP request reader and chunk writer** (`src/http.c`, `src/hcstore.c`). What one `recv` does to a connection is a
  function; the connection object with its line and body buffers follows it; the chain of header buffers is a heap class.

The model does what the code does. Where that differs from what the code is evidently meant to do, the project states the
exact condition under which the intention holds, or shows a run that breaks it:

| place | what the code does | member |
|---|---|---|
| `src/mem_store.c:101-106` | every buffer is copied to the start of the result | `MemStore.CollapseExact`: right for all encodings exactly up to the size of the first buffer |
| `src/fd_store.c:26-31` | the bytes written of a header are compared with an unsigned size, so a write that returns -1 is not noticed | `FdStore.SentExact`, `SfsStore.StoreToFd`: a finished store is the encoding exactly if no write returned -1, and lacks 8 bytes for each that did; `EndToEnd.LostHeaderIsUnnoticed`: if only the first write returns -1, the store of any value ends without an error and lacks its first 8 bytes; `EndToEnd.ListArrivesAsNull`: such a list that is read as its null element |
| `src/hcstore.c:54-61` | `len` and `pos` are never set | `HcCapacity.CapacityExact`, `HcStore.StreamIsFaithful`: safe for every value exactly for `pos <= len`, `2*MIN_INPLACE_SIZE-2 <= len <= allocated`; faithful exactly if `pos` happened to be 0; `HcCapacity.NothingFitsExact`, `HcCapacity.NestedNullsExact`: with both zero, exactly the encodings longer than the allocated buffer overrun it, for example nested lists around a null as soon as their headers do not fit |
| `src/sfs.c:188-194`, `src/sfs.c:224-230` | text of 8192 bytes or more (with its NUL) is not fetched | `Recovery.RoundTrip`: a value is read back exactly if `Supported` |
| `src/sfs.c:95-97`, `src/sfs.c:148-149` | raw vectors and other types are written but have no reader | the same |
| `src/sfs.c:219-223` | a string record of no bytes fetches nothing, and one without a NUL is not terminated | `Records.StaleText`, `Records.TextRecord`: the text goes on with what the static buffer held |
| `src/deps.c:117-129` | keys are looked up before the entry is linked | `Guarantees.StatusMeansPresent`: exact condition; `Races.StrandedByTheWindow`: a run |
| `src/deps.c:70-74` | `tail` is not moved when the last entry is unlinked | `Guarantees.LostExactly`: a registration is lost exactly if it is linked while an older one is pending and the one linked just before is not; `Deps.Tracker.Link`, `Deps.Tracker.Complete`: the same on the heap; `Races.LostBehindTheTail`: a run that loses an entry that waits for nothing |
| `src/therver.c:324-330` | a shutdown wakes nobody | `WorkerPool.ShutdownEndsAllExactly`: every worker ends exactly if none was asleep when the acceptors had stopped; `WorkerPool.LeftAsleep`: a run that leaves one asleep for good |
| `src/http.c:104` | the flattening loop writes into the first buffer, not into the result | `HeaderChain.Recorder.Collect`: the result keeps what its memory held, and the copying stays in bounds exactly if the text fits the first buffer's memory; `HeaderChain.FlattenedWrongly`: right for all memory contents exactly if nothing was recorded, and by `HttpRuns.MethodIsRecorded` something always is |
| `src/http.c:287`, `src/http.c:359-360` | a CR LF cut in two by `recv` counts as a line end and a blank line | `HttpRuns.ReactionIsVerdict`: exactly an LF more; `HttpRuns.CutIsRefused`: every HTTP/1.1 request cut after its request line is refused |
| `src/http.c:318-330` | a second request that was received with the first is left in the buffer | `HttpSessions.SecondRequestWaits`: it is looked at when more is received, and never if the stream ends |
| `src/http.c:345-352` | the 413 answer to an overlong line comes too late: the buffer is never quite full | `HttpMessages.FullBufferHangsUp`: with a full buffer `recv` is asked for nothing, which reads as the end of the stream; `HttpMessages.OverlongLineIsDropped`, `HttpMessages.FullBufferIsReached`: such a line is dropped without an answer |

## How the files fit together

`Bytes`, `Counting` and `Schedules` hold the common vocabulary. `Values`, `Decoder`, `Recovery`, `Framing` are the format
and its theorems, `Layout` and `Records` the format byte by byte; `MemStore`, `FdStore`, `HcStore`, `StatStore` the stores,
`HcCapacity` the exact bounds of the HTTP buffer, `Chunked` the chunked transfer coding of RFC 9112, section 7.1, with its
sender; `SfsStore` and `SfsLoad` the writer and the reader, `EndToEnd` both together. `ObjStore`, `Deps`, `EvQueue` are the
lists on the heap; `Protocol` the concurrent program over them, `Locks`, `Dependencies`, `Coordination` its invariants,
`Histories` what a run records, `Passes` the refinement of a whole pass, `Guarantees` the theorems, `Races` the
counterexamples. `TaskRing` and `WorkerPool` are the pool, and `Realisation` ties all lists on the heap to the steps of the
two programs. `Http`, `HttpStream`, `HttpRuns`, `HttpMessages`, `HttpHeaders`, `HttpSessions`, `HttpConnection` and
`HeaderChain` are the request reader.

`dafny verify dfyconfig.toml` checks everything.

## Model

| member | source | states |
|---|---|---|
| Bytes.HeaderRoundTrip | src/sfs.c:160-162 | a header word of length and type code in little-endian order gives both back for every length below 2^56 |
| Decoder.Load | src/sfs.c:301-328 | reading any bytes terminates, and every success consumes at least the 8 header bytes |
| Decoder.LoadBody | src/sfs.c:301-311 | the same for a header and its body |
| Decoder.DecodeOne | src/sfs.c:156-293 | decoding a body never leaves more bytes than it was given, for any type code and claimed length |
| Decoder.LoadMany | src/sfs.c:197-218 | an element loop that finishes has read exactly the claimed number of elements |
| Decoder.LoadCells | src/sfs.c:251-278 | a cell loop that finishes has read exactly the claimed number of tag and value pairs |
| Recovery.RoundTrip | src/sfs.c:30-151 | loading `store(v)` followed by any bytes, whatever the scratch buffer holds, gives the normal form of `v` and leaves exactly those bytes if `v` is supported, and gives no value otherwise |
| Recovery.CellsRoundTrip | src/sfs.c:251-278 | the same for every pairlist, call or attribute list |
| Recovery.ManyRoundTrip | src/sfs.c:197-207 | the same for the elements of every list |
| Recovery.TextsRoundTrip | src/sfs.c:80-91 | the same for the strings of a string vector: each comes back up to its NUL exactly if it is shorter than the scratch buffer |
| Recovery.ClosureRoundTrip | src/sfs.c:234-249 | the same for the three parts of a closure |
| Recovery.LoadBodyRoundTrip | src/sfs.c:156-293 | the same for the body of a value behind attributes already read |
| Recovery.AttributedRoundTrip | src/sfs.c:305-326 | the same for a value with attributes: they are read first, then the value's own header |
| Framing.LoadExtends | src/sfs.c:301-328 | if loading `b` succeeds with remainder `r`, loading `b + x` succeeds with the same value and remainder `r + x` |
| Framing.TruncationIsAnError | src/mem_restore.c:21-24 | every proper prefix of a supported value's encoding is rejected |
| Framing.PrefixFree | src/sfs.c:30-151 | the encoding of a supported value is a prefix of another encoding only if they are equal and the values agree after normalisation |
| Framing.StreamRoundTrip | src/sfs.c:197-207 | a concatenation of encodings is read back as the list of values |
| Framing.LoneValue | src/mem_restore.c:29-35 | a complete encoding is read back with nothing left over exactly if the value is supported |
| Framing.TextEndsInsideScratch | src/sfs.c:185-187 | text read through the static buffer always ends inside it |
| Framing.UnreadableExamples | src/sfs.c:95-97 | raw vectors, S4 objects and lists with an 8191-byte string are written and cannot be read |
| Layout.WrittenAsLaidOut | src/sfs.c:30-151 | every well-formed value is written in the layout spelled out byte by byte: literal type codes, 56-bit numbers least significant byte first, payloads as they are, attributes first, each cell tag then value, each string with its NUL |
| Records.UnknownCode | src/sfs.c:289-293 | a record with a code that has no reader is an error, raw vectors included |
| Records.LongText | src/sfs.c:185-232 | a text record of 8192 bytes or more is built from memory nobody has written |
| Records.TextRecord | src/sfs.c:219-232 | a text record runs to its first NUL, and without one into what the static buffer held before |
| Records.StaleText | src/sfs.c:219-232 | a string record of no bytes yields the text that was read before it |
| Records.EmptyName | src/sfs.c:185-187 | a symbol record that begins with NUL is an error |
| Records.EnvironmentRecord | src/sfs.c:279-288 | the two known numbers give the global and the empty environment, every other one the base environment |
| Values.CallsAreWell | src/sfs.c:30-151 | every store call the writer makes has a payload of exactly its announced size, within 64 bits |
| MemStore.Chain.BufAdd | src/mem_store.c:72-87 | the bytes of the chain are the old ones followed by the new ones, however they are split over buffers |
| MemStore.Chain.Total | src/mem_store.c:94-97 | the counted total is the length of all bytes in the chain |
| MemStore.Chain.Collapse | src/mem_store.c:89-108 | the result is the overlay of all buffers at its start |
| MemStore.CollapseExact | src/mem_store.c:89-108 | the result is the stored bytes for every initial content of the vector exactly if they fit the first buffer |
| MemStore.OverlayAt | src/mem_store.c:98-107 | each byte of the result is that of the last buffer long enough to reach it, or what the new vector held |
| MemStore.Store.Add | src/mem_store.c:110-137 | the chain holds the flat bytes of all calls, and `cptr` is their length |
| FdStore.Store.WriteAll | src/fd_store.c:38-48 | all bytes are written, or a prefix of them and an error, and the schedule of partial writes decides which |
| FdStore.SentExact | src/fd_store.c:25-49 | a store without some headers lacks 8 bytes for each, and is the encoding exactly if it lacks none |
| FdStore.SentPrefix | src/fd_store.c:25-49 | a store that a schedule abandons stays abandoned in every continuation, and has sent a prefix of what it would have sent |
| FdStore.FirstHeaderLost | src/fd_store.c:25-35 | for any calls, if only the first write returns -1, the store ends without an error and all but the first header is sent |
| FdStore.GoodSchedule | src/fd_store.c:25-49 | if every write takes at least eight bytes, every store ends without an error and loses nothing |
| Schedules.SendAllExact | src/http.c:617-627 | whether pieces are sent is decided by the sends that are made: the code is 0 exactly if each takes something, and else -1 for an error and 1 for a closed peer |
| FdStore.Store.Add | src/fd_store.c:25-49 | the descriptor has received the bytes of all calls but for the headers whose write returned -1, which goes unnoticed, or a prefix of them when it failed otherwise; which headers are lost and whether it failed follows from the schedule of the writes |
| StatStore.Store.Add | src/stat_store.c:22-26 | counts and sizes per type are those of all calls, and 8 times the counts plus the sizes is the length of the stream |
| StatStore.OfTypeIsAll | src/stat_store.c:16-25 | the calls counted for a type are all calls with that code, as a multiset |
| StatStore.CountExact | src/stat_store.c:16-25 | the two numbers of a type are how many calls it has and how many payload bytes these carry |
| Chunked.Connection.Send | src/http.c:617-627 | the schedule of the sends fixes the result and how much is sent: everything and 0, or a prefix and -1 or 1 |
| Chunked.Connection.SizeLine | src/http.c:634-656 | the loops produce the length in lower-case hexadecimal without leading zeros, and CR LF |
| Chunked.Connection.SendChunk | src/http.c:631-665 | the same for the size line, the payload and the CR LF of a chunk, up to the first send that fails |
| Chunked.WireReads | src/http.c:631-665 | a receiver after RFC 9112 recovers the payload of all non-empty chunks and stops at the first empty one |
| HcStore.StepKeepsData | src/hcstore.c:20-41 | whatever the sizes, chunks sent and buffer together are all inputs in order |
| HcStore.CallRunSnoc | src/hcstore.c:43-51 | a run stays inside the buffer exactly if all calls before the last do and then the last call's header and payload do |
| HcStore.CallStepChunks | src/hcstore.c:43-51 | since the header precedes the payload, no call ever flushes an empty buffer |
| HcStore.CallRunChunks | src/hcstore.c:43-51 | over any sequence of calls no empty chunk is sent and no byte is lost, whatever the declared length |
| HcStore.EmptyFlushEndsMessage | src/hcstore.c:25-30 | without the header first, a large input would send an empty chunk, which ends the message for the receiver |
| HcStore.StreamIsFaithful | src/hcstore.c:53-71 | for every declared length a receiver recovers what the buffer held at the start and then the encoding, with exactly one empty chunk, the last; so the encoding alone exactly if the buffer started empty |
| HcCapacity.CapacityExact | src/hcstore.c:53-71 | the store of every value stays inside the buffer exactly if `pos <= len` and `2*min-2 <= len <= allocated`; otherwise some value overruns it |
| HcCapacity.NothingFitsExact | src/hcstore.c:53-71 | if not even a header fits between position and declared length, as when both are 0, nothing is ever flushed, and a value overruns the buffer exactly if its whole encoding does not fit |
| HcCapacity.NestedNullsExact | src/hcstore.c:20-51 | with length and position 0, nested lists around a null overrun exactly when their headers do not all fit |
| HcCapacity.IntendedValuesAreSafe | src/hcstore.c:6-10 | with the length and position evidently meant, no input overruns the buffer |
| HcStore.Store.BufAdd | src/hcstore.c:20-41 | for every input, length and position the buffer and the connection follow the policy function as far as the sends go, until a copy runs past the end, which happens exactly when the policy's buffer exceeds the allocation, and nothing is sent after an error |
| HcStore.Store.Add | src/hcstore.c:43-51 | the same for a whole call, header first: while no send has failed, a copy has overrun exactly if the calls so far do not stay inside |
| HcStore.Store.Finish | src/hcstore.c:62-70 | unless a copy has overrun, the chunks of the policy and the empty one are sent up to the first send that fails, whose code is the result |
| SfsStore.Store | src/sfs.c:30-151 | the recursive writer makes exactly the specified calls in order over every back end, or a prefix of them if a descriptor abandons the store |
| SfsStore.StoreToMemory | src/mem_store.c:139-149 | the raw vector is the encoding whenever that fits the first buffer |
| SfsStore.StoreToFd | src/fd_store.c:51-56 | the schedule of the writes decides whether the store finishes and which headers are lost; a finished store is the encoding exactly if no write returned -1, and otherwise lacks those headers; an abandoned one is a prefix |
| SfsStore.StoreToHttp | src/hcstore.c:53-71 | for every initial length and position: a copy overruns only if the calls for the value do not stay inside the buffer, and exactly then if no send fails; otherwise the result is 0 exactly if each send that was made took something, a prefix of the response is sent, and success means that a receiver reads the buffer's start and the encoding, and nothing is left over |
| SfsStore.StoreStatistics | src/stat_store.c:28-51 | the returned counts and sizes are those of the calls and predict the length of the encoding |
| SfsLoad.FetchApi.FetchBuf | src/mem_restore.c:21-27 | exactly the wanted bytes, or failure if there are fewer |
| SfsLoad.FetchApi.FetchLoop | src/fd_restore.c:25-44 | under every schedule of short reads and retries the same bytes as from memory, or failure |
| SfsLoad.FetchApi.Fetch | src/sock_restore.c:28-47 | file, socket and memory deliver the same bytes |
| SfsLoad.FetchApi.Load | src/sfs.c:301-328 | the reader does on every source what the decoder function says, unless a read call failed and it reported that |
| SfsLoad.FetchApi.LoadCells | src/sfs.c:258-274 | the same for the loop that links cells |
| EndToEnd.ThroughDescriptor | src/fd_store.c:51-56 | writing and reading back under any schedules gives the value or an error as long as no header write returned -1; otherwise a finished store is not the encoding, and the schedule decides whether it finishes, which it does if every write takes at least eight bytes |
| EndToEnd.LostHeaderIsUnnoticed | src/fd_store.c:26-35 | the store of any value under a schedule whose first write alone returns -1 ends without an error and has written the encoding without its first 8 bytes |
| EndToEnd.ListArrivesAsNull | src/fd_store.c:26-35 | under that schedule the store of a list with one null finishes, and what it sends is read as null |
| EndToEnd.ThroughMemory | src/mem_store.c:139-149 | storing to memory and loading gives the normal form exactly for supported values |
| EndToEnd.ThroughHttp | src/hcstore.c:53-71 | the same through a chunked response, which a connection that always takes something delivers; with a declared length of 0 the buffer is overrun exactly by the encodings longer than it |
| ObjStore.TakeTop | src/obj.c:69-87 | the first entry under a key is the top of that key's stack; removing it uncovers the earlier one and no other key is touched |
| ObjStore.TakeKey | src/obj.c:69-87 | on the keys alone, that removal is the one the concurrent program makes |
| ObjStore.Store.Add | src/obj.c:39-53 | a new entry shadows the older ones under its key and no other; the keys are those before with the new one in front, as in the concurrent program |
| ObjStore.Store.Get | src/obj.c:69-95 | the newest unremoved entry, or nothing exactly if the key is not among the keys; removal moves it to the pool and takes its key out as in the concurrent program, and the entry returned is not released |
| ObjStore.Store.Gc | src/obj.c:55-67 | everything in the pool is released, each entry once, and nothing else |
| Deps.Mark | src/deps.c:59-65 | a pass sets the status of exactly the keys that equal its key, and changes nothing else |
| Deps.ScanPartitions | src/deps.c:54-92 | a pass keeps every entry, on the list or among the posted ones, as a multiset |
| Deps.ScanSeparates | src/deps.c:66-89 | what a pass leaves pending is unsatisfied, what it posts is satisfied |
| Deps.Entry.MarkAndCount | src/deps.c:59-66 | the inner loop marks the entry and finds out whether all its keys are satisfied |
| Deps.Tracker.Link | src/deps.c:140-147 | the entry becomes the last of the list exactly if the list is empty or `tail` is its last entry; otherwise the list does not change |
| Deps.Tracker.Complete | src/deps.c:54-92 | the list, the posts and their order after a pass; `tail` reaches afterwards exactly if the list is empty or it reached before and the last entry stayed |
| EvQueue.Queue.Push | src/evqueue.c:72-92 | head, tail, prev and next represent the old sequence with the event at the chosen end; what was ever pushed is waiting or was taken out, as a multiset, and in the order of the pushes while the queue is used from back to front |
| EvQueue.Queue.Remove | src/evqueue.c:146-158 | they represent the sequence without the event at any position, the event is fully detached, and the same account holds |
| EvQueue.Queue.Pop | src/evqueue.c:164-172 | the first event, detached, or nothing, and the same account holds |
| EvQueue.Transfer | src/evqueue.c:63-71 | moving an event from one queue to another leaves both intact, with no event on both, and both accounts hold |
| EvQueue.TakenOut | src/evqueue.c:146-158 | a removal anywhere keeps the account of what was pushed, what waits and what was taken out, and its order if it is at the front |
| Locks.KeepsExclusive | src/obj.c:46-52 | no step of any thread lets two threads into the critical sections of one mutex |
| Guarantees.LockOrder | src/deps.c:49-56 | in every reachable state a thread that waits for a mutex owns none at that place in the order objects, list, queue or later, so waiting for a thread that waits leads to a later mutex and never in a circle |
| Locks.StepDescends | src/deps.c:54-92 | every step of every thread lowers a measure of posts to come, phases and entries to visit |
| Locks.Settles | src/obj.c:46-52 | from every such state the steps in flight lead to rest |
| Dependencies.AddedBetween | src/obj.c:46-48 | a key absent at one time and present later was added in between |
| Dependencies.MarkedExact | src/deps.c:60-65 | a turn of the running pass keeps every status exact: set if found at lookup or announced since linking |
| Dependencies.SatisfiedIsEarned | src/deps.c:66-82 | an entry found satisfied has had each key in the store at some moment since its lookup |
| Dependencies.PassesStep | src/obj.c:46-52 | every key added is announced by one pass of its own, while the object mutex is held |
| Dependencies.ListStep | src/deps.c:54-150 | every step keeps all statuses on the list exact |
| Coordination.StepInv | src/deps.c:54-150 | every step of any thread keeps the whole invariant |
| Coordination.ConservedStep | src/deps.c:66-85 | no step loses or duplicates a registration |
| Coordination.CoveredStep | src/evqueue.c:174-196 | no step leaves a sleeper with more events than woken callers that have not rechecked |
| Guarantees.ActionInv | src/evqueue.c:174-196 | calls, steps, timeouts and spurious wake-ups keep the invariant |
| Guarantees.NoDeadlock | src/deps.c:117-150 | in every reachable state with an operation in flight some thread can step, for any number of threads |
| Guarantees.EverythingEnds | src/obj.c:46-52 | with no new calls every schedule comes to rest |
| Guarantees.ExactlyOnce | src/deps.c:54-153 | pending, posted, lost and unfinished registrations are together exactly those made, as a multiset, in every reachable state |
| Coordination.LinkOrderStep | src/deps.c:54-147 | every step keeps the list in the order of linking, with `tail` on it exactly if the entry linked last is |
| Guarantees.LostExactly | src/deps.c:140-146 | in every reachable state a registration is lost exactly by linking it while an older one is pending and the one linked just before it is not |
| Guarantees.LostForGood | src/deps.c:140-146 | a lost registration stays lost in every continuation, and posts are never taken back |
| Guarantees.PostsAreEarned | src/deps.c:54-150 | a message is posted only if each of its keys had been added more often than removed at some moment since that `deps_add` began |
| Guarantees.StatusMeansPresent | src/deps.c:117-150 | the status of a key is set exactly if the key has been stored - added more often than removed - at some moment since its lookup, if and only if its addition was not passed between lookup and linking, or it was announced again |
| Guarantees.PendingIsUnsatisfied | src/deps.c:149-150 | outside passes and with no final `deps_complete(0)` outstanding every linked entry waits for some key |
| Guarantees.NoLostWakeup | src/evqueue.c:174-196 | while a caller sleeps, queued events do not outnumber the woken callers that have not rechecked |
| Guarantees.PoppedInOrder | src/evqueue.c:164-172 | resolved dependencies are popped in the order they were posted |
| Histories.StoreIsNet | src/obj.c:39-87 | in every reachable state the store holds each key as often as it was added less how often it was removed |
| Histories.StoreChanges | src/obj.c:39-95 | a step records an addition for `obj_add`, a removal for `obj_get` with removal exactly if the key is stored, and nothing else |
| Histories.LookupFinds | src/deps.c:134 | a lookup finds a key exactly if it was added more often than removed |
| Histories.SleepersWait | src/evqueue.c:174-196 | in every reachable state a thread that sleeps or has been woken is in a call that waits |
| Histories.PopExact | src/evqueue.c:164-196 | a pop sleeps exactly if the queue is empty, it waits and its time is not out; otherwise it takes and returns the first event, or nothing from an empty queue |
| Histories.PopReturns | src/evqueue.c:164-172 | a pop that does not wait returns after two steps of its own, whatever other threads do |
| Histories.TimeoutReturns | src/evqueue.c:186-196 | a caller whose time is out returns at its next step |
| Realisation.AddStep | src/obj.c:39-53 | `obj_add` on the heap changes the keys as the step of the program does |
| Realisation.GetStep | src/obj.c:69-95 | so does `obj_get`, which finds an entry exactly if the key was added more often than removed |
| Realisation.LookStep | src/deps.c:134 | the status of a key is whether the lookup on the heap finds an entry |
| Realisation.CollectStep | src/obj.c:55-67 | `obj_gc` changes no key |
| Realisation.LinkStep | src/deps.c:140-147 | linking on the heap keeps or loses an entry as the program does |
| Realisation.PassRun | src/deps.c:54-92 | a `deps_complete` on the heap leaves and posts what the interleaved pass of the program does, and `tail` reaches alike |
| Realisation.PushStep | src/evqueue.c:72-92 | the push of a finished entry on the heap is that of the program |
| Realisation.PopStep | src/evqueue.c:164-196 | a pop on the heap returns the event the program says |
| Realisation.AddTask | src/therver.c:114-127 | adding to the ring is the step of the pool, and wakes every sleeper |
| Realisation.TakeTask | src/therver.c:81-93 | a worker serves the connection at the front of the ring, or sleeps if there is none |
| Passes.Undisturbed | src/deps.c:54-92 | no step of any thread changes the list and the posts the running pass leads to |
| Passes.RestIsScan | src/deps.c:54-92 | the turns of a pass amount to the sequential scan |
| Passes.PassIsScan | src/deps.c:54-92 | a whole pass, interleaved with anything, leaves and posts what the sequential pass does, and `tail` stays on the list exactly if it was and the last entry stays |
| Guarantees.EveryPassIsScan | src/deps.c:54-92 | the same for the passes of every reachable state, with no further condition on the list |
| Races.StrandedByTheWindow | src/deps.c:117-129 | a reachable state at rest with a pending entry whose only key is stored |
| Races.LostBehindTheTail | src/deps.c:70-74 | a reachable state at rest in which an entry without any keys has been lost |
| TaskRing.Ring.Add | src/therver.c:114-127 | the ring represents the old sequence with the new connection at its end |
| TaskRing.Ring.TakeFirst | src/therver.c:81-93 | the first connection leaves, and the ring represents the rest |
| WorkerPool.StepInv | src/therver.c:73-109 | every step of any worker or acceptor keeps the invariant |
| WorkerPool.ServedOnceInOrder | src/therver.c:73-109 | each accepted connection is on its way, queued, held by one worker, or finished, never served twice, and connections are taken first come first served |
| WorkerPool.NoSleepOverWork | src/therver.c:78-82 | while the ring is not empty no worker sleeps on the condition |
| WorkerPool.StepDescends | src/therver.c:73-109 | every step lowers a measure of adds to come, open work and phases |
| WorkerPool.RestMeansServed | src/therver.c:73-109 | an active pool with a worker is at rest only when every accepted connection has been served, once |
| WorkerPool.EverythingServed | src/therver.c:73-109 | while the pool is active and has a worker, every run of steps descends, can be brought to rest, and at rest has served every accepted connection exactly once |
| WorkerPool.ShutdownTakesNothing | src/therver.c:84-88 | after a shutdown nothing more is taken from the queue |
| WorkerPool.ShutdownStopsSoon | src/therver.c:73-109 | after a shutdown each thread acts at most a few times more in every run: a worker finishes what it serves and leaves, an acceptor takes at most the connection it is waiting for |
| WorkerPool.SleepersStay | src/therver.c:324-333 | after a shutdown with the acceptors gone, sleeping workers are never woken |
| WorkerPool.ShutdownEndsAllExactly | src/therver.c:324-333 | every run that comes to rest after a shutdown ends all workers exactly if none was asleep when the acceptors had stopped |
| WorkerPool.LeftAsleep | src/therver.c:324-333 | a reachable state at rest after a shutdown with a worker asleep for good |
| Http.StepValid | src/http.c:267-571 | in every run `line_pos` is below the buffer size, the body never exceeds its length, and a connection left in the body part waits for a body of positive length |
| HttpStream.ScanPastHead | src/http.c:285-341 | a scan that reaches a reaction or the body does so whatever follows in the stream |
| HttpStream.ScanInHead | src/http.c:343-358 | a scan stopped by the end of its input goes on as if it had seen everything at once, except at a CR LF cut in two |
| HttpRuns.ReactionIsVerdict | src/http.c:267-522 | for every way of cutting the stream the first reaction is that to the uncut stream with an LF more at each CR LF of the head that is cut after a line that is not empty |
| HttpStream.InHeadOn | src/http.c:343-358 | whether a stream is still in its head depends on the unfinished line and what follows only, unless a CR LF is cut in two |
| HttpRuns.SameForEveryCut | src/http.c:267-522 | two ways of cutting that keep each CR of the head with its LF give the same request or answer; a body may be cut anywhere |
| HttpRuns.RequestIsDelivered | src/http.c:285-340 | request line, header lines, blank line and body are handed on with path, recorded headers, and exactly the announced bytes after the blank line |
| HttpRuns.DeliveredHoweverCut | src/http.c:267-522 | the same for every way of cutting that keeps each CR with its LF |
| HttpRuns.CutIsRefused | src/http.c:287-294 | an HTTP/1.1 request cut between the CR and LF of its request line is answered 400, whatever follows |
| HttpRuns.RequestLineParsed | src/http.c:362-402 | a request line yields its target, version, method and method header, or 501 exactly if the method is unknown and too long to be recorded |
| HttpRuns.LinesRecorded | src/http.c:406-431 | all header lines are recorded in order, each with one newline |
| HttpRuns.LengthAnnounced | src/http.c:432-447 | a header line with a whole number in decimal, under its name in any case, sets that length |
| HttpMessages.LinesEffect | src/http.c:432-482 | header lines set the host and the close flag exactly if one of them says so, and leave the length alone unless one is named so |
| HttpMessages.LengthOfHead | src/http.c:432-447 | the last length line of a head, wherever it stands, is the length used |
| HttpMessages.BodyDelivered | src/http.c:267-522 | a request with any accepted method but GET and HEAD, a host line unless it is HTTP/1.0, and a last length line that gives the size of its body is handed on with its target, method, version, headers as sent and exactly that body, for every way of cutting that keeps each CR of the head with its LF |
| HttpHeaders.RequestLineExact | src/http.c:362-371 | a first line is refused as malformed exactly if it does not end in ` HTTP/1.` and one more byte behind at least five others |
| HttpHeaders.NoTargetLine | src/http.c:362-402 | without a target the version is taken for it |
| HttpHeaders.LineEnds | src/http.c:343-360 | a line is taken whether it ends in CR LF, LF or CR |
| HttpHeaders.BlankEnds | src/http.c:285-310 | a blank line ends the head, with or without a CR |
| HttpHeaders.NulStops | src/http.c:284-358 | a NUL inside a line keeps it incomplete for good; at the beginning of a line everything received is dropped |
| HttpHeaders.ConnectionLine | src/http.c:463-468 | `Connection` in any case asks to close exactly if its value begins with `close` in any case, and changes nothing else |
| HttpHeaders.HostLine | src/http.c:460-461 | `Host` in any case sets the host flag and nothing else |
| HttpHeaders.UpgradeLine | src/http.c:441-442 | `Upgrade` in any case sets its flag exactly for the value `websocket` |
| HttpHeaders.WebSocketLine | src/http.c:469-480 | the three `Sec-WebSocket-` lines in any case set their values |
| HttpHeaders.ContentTypeLine | src/http.c:447-459 | `Content-Type` in any case is kept in lower case up to its first semicolon, and tells a form |
| HttpHeaders.OtherLine | src/http.c:432-482 | any other line sets nothing |
| HttpSessions.RequestInOnePiece | src/http.c:285-341 | what a request in one piece comes to, with any bytes behind it: 400 without a host, 413 for a length that is negative or too large, 400 for GET and HEAD with a body; handed on without a body, and what follows begins the next request; handed on with its body, and what follows closes the connection; or its body begun; kept or closed by version and `Connection` line |
| HttpSessions.StepsAreOne | src/http.c:247-571 | however a stream that leaves nothing over is cut, its pieces together leave the connection as they do at once |
| HttpSessions.MayBeReceived | src/http.c:269 | `recv` may return a byte at least, and no more than what is missing of a body or fits in the line buffer with its terminator |
| HttpSessions.ArrivesAnyhow | src/http.c:247-571 | a complete request of a kept connection that fits in the buffer may be received in any pieces that keep each CR of the head with its LF |
| HttpSessions.KeptHoweverCut | src/http.c:320-330 | a complete request is handed on however it is cut, and if the connection is kept it is as new |
| HttpSessions.ClosedHoweverCut | src/http.c:321-324 | after a request that is HTTP/1.0 or asks to close nothing more is handed on, whatever follows |
| HttpSessions.RefusedHoweverCut | src/http.c:287-317 | a refused head is answered with its code however it is cut, and nothing is handed on |
| HttpSessions.Conversation | src/http.c:579-614 | requests on one connection, each in reads of its own that keep each CR of the head with its LF, are handed on one by one, exactly and in order, up to one that closes it |
| HttpSessions.ServeConversation | src/http.c:579-614 | the server loop hands on exactly these |
| HttpSessions.SecondRequestWaits | src/http.c:249-258 | what stands behind a request without a body waits for the next read and begins the next request then; if the stream ends instead it is never handed on, even if it is a whole request |
| HttpSessions.BytesBehindBodyClose | src/http.c:510-516 | what stands behind a body in the same read closes the connection |
| HttpSessions.EndsInBody | src/http.c:500-508 | a stream that ends inside a body hands on what has arrived of it; one that fails hands on nothing |
| HttpSessions.EndsInHead | src/http.c:273-279 | a stream that ends inside the head hands on the request with the lines that are complete, whether or not there is a host; one that fails hands on nothing |
| HttpSessions.EndsBeforeRequest | src/http.c:273-279 | a stream that ends before its first line is complete hands on nothing |
| HttpMessages.FullBufferHangsUp | src/http.c:269-281 | with a full line buffer `recv` is asked for nothing and the connection is closed, never with the 413 answer |
| HttpMessages.OverlongLineIsDropped | src/http.c:345-352 | a first line longer than the buffer is never answered, however it arrives |
| HttpMessages.FullBufferIsReached | src/http.c:345-352 | a stream that fills the buffer and is then dropped |
| HttpRuns.MethodIsRecorded | src/http.c:378-393 | every accepted request line records its whole method as the first header |
| HttpConnection.Connection.FindEnd | src/http.c:343-345 | the inner loop finds the end of the line |
| HttpConnection.Connection.ScanBuffer | src/http.c:285-491 | the loop over the line buffer leaves the connection as the scan function says |
| HttpConnection.Connection.FinishHead | src/http.c:287-340 | the end of the head rejects, hands on, or begins the body, with the rest of the buffer moved |
| HttpConnection.Connection.DeliverBody | src/http.c:510-522 | a complete body is handed on, and the connection closed or made ready |
| HttpConnection.Connection.InputIteration | src/http.c:247-571 | one iteration consumes reads and leaves the rest of the run unchanged |
| HttpConnection.Serve | src/http.c:579-614 | over a whole connection the answers and requests are those of the step function, and it ends |
| HeaderChain.Needs | src/http.c:413-418 | the doubled size holds the rest of the line |
| HeaderChain.Recorder.RecordMethod | src/http.c:381-392 | the method is recorded as a header exactly if it fits the first buffer |
| HeaderChain.Recorder.RecordLine | src/http.c:406-431 | the chain holds the old text, the line and a newline, across buffers, and no buffer exceeds its size |
| HeaderChain.Recorder.CopyOver | src/http.c:104-109 | the copy loop stays inside the first buffer's memory exactly if all recorded text fits there, changes nothing recorded, and leaves the flattened text in that memory |
| HeaderChain.Recorder.Collect | src/http.c:92-112 | the result has the length of the recorded text and keeps what its memory held, so it is the text exactly if the memory was; the text itself ends up in the first buffer |
| HeaderChain.FlattenedWrongly | src/http.c:101-111 | for anything recorded some memory gives flattened headers that differ from it; for nothing recorded none does |

## Left out

- Sockets, files, `accept`, DNS, TLS and signal handling: represented by schedules of short or failing reads and writes.
- R's memory management, allocation failure, `R_PreserveObject` and `R_ReleaseObject`: release is an event in the model.
- Retries on `EAGAIN` without end: the schedules of read results are finite.
- Byte code, ALTREP, the NA string, the object flag, and attributes set on shared R objects; attribute and closure parts are
  restored as read, without R's run-time checks on formals, environments and symbols, and elements of a string vector
  without the check that they are strings.
- Big-endian machines, and the `double` conversion of the statistics.
- Debug output of the memory store and its type-name table.
- The text protocol (`src/osrv.c`, `src/ocli.c`), HTTP routing (`src/ohsrv.c`), `uri_decode`, response formatting.
- Fork handlers (`src/therver.c:136-183`) and the per-worker `data` pointer that is carried from one connection to the next.
- The notify descriptor of the event queue, the wall-clock computation of its timeout (a timeout may happen at any time), and
  front pushes or foreign events on the dependency queue; the queue class itself has both ends.
- An error when closing a descriptor, and a handler that aborts the connection from inside `process`.
- `atol` on numbers beyond `long`, and requests whose head contains NUL bytes in the theorems about cuts; the step function
  itself treats a NUL as the source does.
- `HttpConnection.Connection` holds the recorded headers as a value; the chain of buffers that stores them is
  `HeaderChain.Recorder`.
- A write through the dangling `tail` pointer reaches freed memory; the model only says that the entry is not on the list.
- `ev_pop_wait` on a queue that is being destroyed, and any use of the lists without their mutex.
- HttpConnection.Connection.TakeLine: the header line is parsed by functions on its text, not by loops over the line buffer.
- HcStore.Store.BufAdd: what a copy past the end of the buffer does to other memory is not modelled, only that it has happened.
