# A verified model of the proxy server

The proxy accepts HTTP connections in several worker processes, of which one listens at a
time, hands the received bytes to a thread pool through a segment-claiming ring buffer, and
answers requests from a shared LRU cache or forwards them to the web server. This project
models the four parts of it whose correctness is not local, and proves what they promise.
Each part has a state machine, or a plain specification, that the theorems are about, and
classes in the form of the source whose methods are proved against it.

## The ring buffer

`SegmentRing` is the machine: a claim (with the publication that `tryWriteSpace` makes under
the same mutex), one cell write, a segment take and one cell read are the steps, over any
number of producers and consumers. There are three kinds of runs. `Literal` runs make the
claims the code makes. `FirstLap` runs are literal runs in which every claim ends inside the
first lap of the ring. `Windowed` runs publish a segment once and may be granted a new one,
by any rule, only while no live index lies so far back that a cell would be shared.

- `RingBase`, `RingClaims`, `RingHistory`: what every run keeps, refused claims and later laps
  included. Claims tile the index space, published segments are never still being filled, and
  the third disjunct of the admission test never admits: `<` binds tighter than `&`.
- `RingDelivery`, `RingOrder`, `RingTheorems`: delivery, conservation and order, for `Windowed`
  and `FirstLap` runs. The window is exact: outside it a grant does reuse a live cell.
- `RingRetries`: what refused claims do. A refused producer keeps its counters and inserts the
  same segment again on its next call, so on the literal code an item can be delivered twice
  after a first-lap run if and only if the next segment would end at or beyond the ring's size.
- `RingForeign`: what the claims granted to producers without a segment do. After such a claim a
  consumer can be handed, at some index, a value never written there if and only if the claim
  was made outside the window.
- `RingLaps`: runs of the literal code from the empty queue, for every geometry, that reach the
  end of the first lap, deliver an item twice, and deliver such a foreign value.
- `RingBounds`: the literal code hands out at most one lap and one segment for each producer,
  then refuses every producer that holds a segment for good.
- `RingClasses`: the three classes; a call is a run of the machine.

## The listening rotation

`ProcessMutexModel` is the lock at the granularity of its compare-and-swap, with `unlock` and
the acquiring calls in two steps. `Rotation` adds the workers, their eventfds, the toggle of
the acceptor and the hand-over, for any configuration of the ring. Safety holds in every
configuration. `RotationLiveness` says which ones can lose the right to listen: a ring never
does if and only if every worker has its hand-over handler from the start, a neighbour with a
slot, and a non-zero value to write. The configuration in the source meets none of the three
everywhere: the handler comes only with the first wake-up (an empty handler throws), the modulus
is one larger than the number of slots (the entry behind the last slot is taken to wake nobody),
and worker 0 writes 0. `RotationProgress` shows that in a sound ring a listener is not only
possible but inevitable between two triggers, `RotationTurns` that it is the neighbour of the last
one, so that every worker gets its turn. `RotationClasses` holds the objects. `owner` is left
unset by the constructor that workers use; mutual exclusion of the mutex by itself holds if and
only if the flags start false, while the rotation, which only uses `tryLock` to acquire, is safe
either way.

## The cache

`RecencyCache` is the cache as a recency sequence, `LruIndex` the list and position map that
refine it, `LruTrace` what whole traces of puts and gets leave in caches of one or of
different capacities. `CopyOnWrite` and `CopyOnWriteReads` are the machine for the
reference-counted wrapper: mutex operations, the pointer copy and its release, the ownership
test, the copy, `put` and `get` interleave over any number of threads; the published cache is
always the replay of a log of puts, gets and copies, so the trace theorems apply to it. The
eviction loop of `put` tests a size that is computed once and never changes; `PutAsWritten`
models that, with the exact condition under which it returns, and `Put` counts the size down,
as intended.

## Request framing and pipelining

`HttpFraming` is what a buffer parses to, `HttpRender` the rendering it inverts,
`HttpContextClass` the scanning object, `Pipeline` what peeling requests off a buffer comes to,
`PipelineClass` the loop that does it, `ConnectionRuns` the messages of one connection over time.
It is a subset of sections 3, 3.1.1, 3.2, 3.3.2 and 6.3.2 of RFC 7230, as the code has it: any
line without a colon ends the headers, the header name is matched exactly, the last
Content-Length wins, none means no body, and its value goes through `atoi` into 32 unsigned bits, so a negative
one becomes large. The cached-answer branch compares the method with "Get", so a request
whose method is "GET" is never looked up. The assertion beside each forward compares the
whole live buffer with one frame; `Asserted` and `Alone` say when it holds.

A message is copied when it arrives and handled later, frame by frame, by a task of the thread
pool. The copy holds everything then in the live buffer, so if an earlier copy still has a frame
to be handled, that frame is in both and is handled twice; the second time, bytes that followed
it are taken out of the live buffer in its stead. `ConnectionRuns` is the machine of messages and
of tasks whose frames interleave freely. It proves, over every run in which all tasks have ended,
that the stream is handled in order and each frame once, from its own place, if and only if no
message arrived in that situation, and exhibits a request handled twice and a request lost. The
loop itself does not end if a frame needs a tunnel that never comes up: `isCheck` then stays set
and the connection is not looked at again.

## Model

| member | source | states |
|---|---|---|
| RingBase.RunKeepsBase | ThreadPool/CircleQueue.cpp:21-63 | every run of every kind keeps the counters, the granted segments, the published set and the consumers in agreement, and every next step is well defined |
| RingClaims.ThirdDisjunctIsFalse | ThreadPool/CircleQueue.cpp:35 | with the precedence of C++ the third disjunct is 0 for every even segment end |
| RingClaims.AndIsBitwise | ThreadPool/CircleQueue.cpp:35 | the conjunction has exactly the bits that both words have |
| RingClaims.GuardInReachableStates | ThreadPool/CircleQueue.cpp:32-36 | in every reachable state the guard is "nothing published, or the segment ends inside the first lap" |
| RingClaims.HolderIsAdmittedOnlyInFirstLap | ThreadPool/CircleQueue.cpp:28-39 | a producer that already holds a segment is granted another exactly inside the first lap |
| RingClaims.ClaimsTileTheIndexSpace | ThreadPool/CircleQueue.cpp:32-39 | an index lies in a granted segment if and only if it is below writeId, and in only one, over all runs |
| RingClaims.PublicationSafety | ThreadPool/Producer.h:25-43 | no published or consumer-held index belongs to a segment still being filled, over all runs including refused claims |
| RingHistory.RunKeepsHistory | ThreadPool/Producer.h:25-43 | over all runs the written indices are exactly those below the producers' cursors, and the log of accepted items agrees with them |
| RingHistory.NeverPublishedItemsAreTheCurrentOnes | ThreadPool/Producer.h:27-41 | an accepted item that was never published lies in its producer's current segment below the cursor |
| RingHistory.AtMostOneSegmentUnpublished | ThreadPool/Producer.h:27-41 | accepted but never published items number at most try_size for each producer, over all runs |
| RingHistory.AcceptedOnceInOrder | ThreadPool/Producer.h:25-43 | no two accepted items share an index, and one producer's indices increase |
| RingDelivery.StepKeepsSafe | ThreadPool/CircleQueue.cpp:21-80 | every step whose claims publish once and stay in the window keeps ownership of segments, the contents of live cells, at-most-once delivery and that nothing is lost |
| RingTheorems.FirstLapClaimIsGood | ThreadPool/CircleQueue.cpp:32-39 | on the literal code a first-lap claim is always granted, is inside the window and publishes once |
| RingTheorems.RunKeepsGood | ThreadPool/CircleQueue.cpp:21-80 | the delivery invariant holds after every first-lap run and every windowed run |
| RingTheorems.DeliveredAtMostOnceWithOwnValue | ThreadPool/Consumer.h:21-38 | a delivered item was accepted with that index and value, and no index is delivered twice, over any number of laps |
| RingTheorems.LiveIndicesHaveDistinctCells | ThreadPool/CircleQueue.cpp:67-80 | two different live indices never have the same remainder modulo size |
| RingTheorems.WindowIsExact | ThreadPool/CircleQueue.cpp:32-39 | the window condition holds if and only if the segment granted next shares no cell with a live index |
| RingTheorems.InFlightUntilDelivered | ThreadPool/CircleQueue.cpp:67-80 | a written index is live until it is delivered and not after, and while live its cell holds what was written |
| RingTheorems.Conservation | ThreadPool/Producer.h:25-43 | the multiset accepted equals the multiset delivered plus what live cells hold, under any interleaving |
| RingTheorems.PerProducerOrder | ThreadPool/CircleQueue.cpp:55-58 | items of one producer reach one consumer in the order they were accepted |
| RingTheorems.SingleProducerSingleConsumerIsFifo | ThreadPool/Consumer.h:23-37 | with one producer and one consumer what was read is a prefix of what was written |
| RingRetries.RetriesDeliverTwiceIff | ThreadPool/Producer.h:27-40 | after a first-lap run, some continuation in which one producer retries its write and consumers read delivers an item twice if and only if the next segment ends at or beyond size |
| RingRetries.RefusalDeliversTwice | ThreadPool/CircleQueue.cpp:28-31 | from any state past the first lap such a literal run is exhibited |
| RingRetries.AdmittedDeliversOnce | ThreadPool/CircleQueue.cpp:35-39 | while the next segment ends inside the first lap no such run delivers twice |
| RingRetries.FreshClaimIgnoresLiveCells | ThreadPool/CircleQueue.cpp:35-39 | a producer without a segment is granted one whenever nothing is published, and outside the window that segment reuses a live cell |
| RingForeign.SettlingKeepsSafe | ThreadPool/CircleQueue.cpp:28-39 | from a safe state, literal continuations without further grants in which each segment is published once keep the delivery invariant |
| RingForeign.FreshClaimDeliversForeignIff | ThreadPool/CircleQueue.cpp:35-39 | after a claim by a producer without a segment, such a continuation delivers a value not written at its index if and only if the claim was made outside the window |
| RingLaps.LapEndIsReached | ThreadPool/CircleQueue.cpp:32-39 | in every ring larger than a segment a first-lap run from the empty queue reaches a full producer whose next claim is refused |
| RingLaps.LiteralCodeDeliversTwice | ThreadPool/Producer.h:27-40 | for every geometry a literal run from the empty queue delivers an item twice |
| RingLaps.LiteralCodeDeliversForeign | ThreadPool/CircleQueue.cpp:35-39 | for every geometry and four producers a literal run from the empty queue delivers, at some index, a value other than the one written there |
| RingBounds.LiteralRunsAreBounded | ThreadPool/CircleQueue.cpp:32-39 | over every literal run writeId, and the number of accepted items, is at most size plus one segment for each producer |
| RingBounds.HoldersAreRefusedForGood | ThreadPool/CircleQueue.cpp:35-39 | once the next segment ends at or beyond size, every later claim by a producer that holds one is refused |
| RingClasses.CircleQueue.constructor | ThreadPool/CircleQueue.h:15-20 | the new queue is the machine's initial ring |
| RingClasses.CircleQueue.TryReadSpace | ThreadPool/CircleQueue.cpp:5-18 | takes the published segment that comes before all others, or answers -1 and changes nothing |
| RingClasses.CircleQueue.TryWriteSpace | ThreadPool/CircleQueue.cpp:20-44 | publishes the named segment, if any; then grants the next try_size indices if and only if nothing is published or they end inside the first lap, and otherwise answers -1 with writeId kept |
| RingClasses.CircleQueue.TryReadSpaceByCV | ThreadPool/CircleQueue.cpp:46-63 | removes and returns the smallest published segment, or waits with nothing changed exactly when there is none |
| RingClasses.CircleQueue.Read | ThreadPool/CircleQueue.cpp:66-72 | the cell of the index modulo size |
| RingClasses.CircleQueue.Write | ThreadPool/CircleQueue.cpp:74-80 | only that cell changes |
| RingClasses.Producer.Write | ThreadPool/Producer.h:25-43 | with room in its segment it stores at the cursor and returns true; without, it publishes the segment and stores at the start of the next one if nothing is published or that ends inside the first lap; only otherwise it returns false with the counters kept |
| RingClasses.Consumer.Read | ThreadPool/Consumer.h:20-38 | waits exactly when nothing is left and nothing published; otherwise returns the cell at its cursor, or takes the smallest segment and returns the cell at its start, and never the failing pair |
| RingClasses.WriteCallIsARun | ThreadPool/Producer.h:25-43 | from every reachable state a write call is a literal run that accepts the item at the cursor if there is room, at the start of the next segment if that is granted, and only otherwise nothing |
| RingClasses.ReadCallIsARun | ThreadPool/Consumer.h:20-38 | a read call is a literal run that delivers exactly the value it returns, and waits exactly when the machine has no step for it |
| ProcessMutexModel.RunKeepsInv | Process/ProcessMutex.h:63-91 | over all interleavings of lock, tryLock and the two-step unlock the word is 1 exactly while one process is between its winning and its releasing CAS |
| ProcessMutexModel.UnlockSucceeds | Process/ProcessMutex.h:82-91 | with flags that start false the assertion holds for every holder and the releasing CAS succeeds |
| ProcessMutexModel.ExclusiveIffFlagsStartClear | Process/ProcessMutex.h:47-53 | mutual exclusion holds on every run if and only if all owner flags start false |
| ProcessMutexModel.UnsetFlagLetsTwoIn | Process/ProcessMutex.h:63-70 | with one flag set some run puts two processes inside at once |
| ProcessMutexModel.LockCallIsARun | Process/ProcessMutex.h:63-80 | with the byte free, lock and tryLock are runs that end with the caller as owner and the byte 1; with its flag set lock leaves the byte |
| ProcessMutexModel.TakenByteStopsCalls | Process/ProcessMutex.h:63-80 | with the byte taken and the flag clear a turn of lock and a tryLock change nothing |
| ProcessMutexModel.UnlockCallIsARun | Process/ProcessMutex.h:82-91 | unlock by the holder is a run that ends with its flag clear and the byte 0 |
| ProcessMutexModel.SharedByte.Cas | Process/ProcessMutex.h:65-65 | one compare-and-swap on the shared byte |
| ProcessMutexModel.ProcessMutex.Lock | Process/ProcessMutex.h:63-70 | for any number of turns of its spin: returns as owner exactly if the flag is set or the byte is free; a flag already set skips the CAS and leaves the byte |
| ProcessMutexModel.ProcessMutex.TryLock | Process/ProcessMutex.h:72-80 | succeeds exactly on a free byte, and otherwise changes nothing |
| ProcessMutexModel.ProcessMutex.Unlock | Process/ProcessMutex.h:82-91 | its assertion holds exactly for an owner while the byte is 1, which it then frees; without the flag it changes nothing |
| Rotation.PlayKeepsInv | ProxyServer/ProxyServer.cpp:8-41 | over all runs, in any ring, the byte is 1 exactly while one worker is between its CASes, and each worker's flags fit its stage |
| Rotation.AtMostOneListens | ModifiedMuduo/Acceptor.cpp:48-72 | a listening worker holds the byte and its flag, and no other worker is past its winning CAS, whatever the flags held at the fork |
| Rotation.TogglesGoTheRightWay | ModifiedMuduo/TcpServer.cpp:137-154 | the toggle enables when reached from enableListen and disables when reached from newConnection; only a missing handler can stop a hand-over |
| RotationLiveness.NoLostHandOver | Process/WorkerProcess.cpp:59-82 | in a sound ring, if the byte is 0 then some worker has not tried, has a wake-up pending, is about to write one or has read one |
| RotationLiveness.AliveCanListen | ProxyServer/ProxyServer.cpp:8-21 | from every state a sound ring can reach some run reaches a listening worker |
| RotationLiveness.UnsoundRingFallsAsleep | Process/WorkerProcess.cpp:59-64 | for any worker that cannot hand over, a run is exhibited that leaves all workers asleep with no wake-up pending |
| RotationLiveness.ListeningIsNeverLostIffSound | Process/WorkerProcess.cpp:59-82 | from every reachable state a listener can be reached if and only if every worker has its handler, an existing neighbour and a waking value |
| RotationLiveness.CodeRingHandsOverInTheMiddle | Process/WorkerProcess.cpp:80-80 | with handlers at start, the source's modulus and values let exactly the workers between the first and the last hand over |
| RotationLiveness.CodeRingLosesListening | Process/WorkerProcess.cpp:71-82 | as the source sets the ring up, whichever worker listens first, some run leaves every worker asleep |
| RotationProgress.ActionLowersWork | Process/WorkerProcess.cpp:59-82 | in any ring every action but a hand-over trigger leaves the workers less to do |
| RotationProgress.ListenerIsInevitable | Process/WorkerProcess.cpp:59-82 | from every state a sound ring reaches, every run without a new trigger is bounded, and where it can go no further someone listens |
| RotationTurns.HandOverWakesNeighbour | Process/WorkerProcess.cpp:59-80 | the step that ends a hand-over changes only the entry of the neighbour, by the value written, and none if the neighbour has no slot |
| RotationTurns.NeighbourListensNext | Process/WorkerProcess.cpp:59-82 | in a sound ring whose modulus is the number of workers, with one worker listening and the others asleep, every run after a trigger ends within seven more actions and then exactly the neighbour listens |
| RotationTurns.EveryWorkerGetsItsTurn | Process/WorkerProcess.cpp:59-82 | after k hand-overs the worker k places on listens |
| RotationTurns.AnyWorkerCanListen | Process/WorkerProcess.cpp:59-82 | from the fork some run makes any given worker the listener |
| RotationTurns.HandlerIffWoken | Process/WorkerProcess.cpp:79-80 | over all runs a worker has its handler exactly if it had it at the start or was woken |
| RotationTurns.WokenWorkersHandOver | Process/WorkerProcess.cpp:59-82 | a worker is gone only if the ring has no handlers at the start and it was never woken; otherwise a hand-over it has begun goes on to unlock |
| RotationTurns.HandOverOf | Process/WorkerProcess.cpp:59-64 | the hand-over of a listening worker with a handler ends with it not listening, the byte free and its neighbour's entry grown |
| RotationTurns.MiddleWorkerWakesNext | Process/WorkerProcess.cpp:59-80 | with the source's modulus and values, a listening worker between the first and the last that has a handler wakes the next |
| RotationTurns.CodeRingNeverWakes | Process/WorkerProcess.cpp:71-82 | in the source's ring no run wakes anybody: the handler comes with a wake-up and a wake-up needs a handler |
| RotationClasses.SettleIsARun | ProxyServer/ProxyServer.cpp:8-41 | what one worker does until it is back in its event loop is a run of the rotation machine |
| RotationClasses.Acceptor.Listen | ModifiedMuduo/Acceptor.cpp:48-58 | sets the flag and the start time |
| RotationClasses.Acceptor.EnableListen | ModifiedMuduo/Acceptor.cpp:60-65 | sets the flag and leaves the start time |
| RotationClasses.Acceptor.DisableListen | ModifiedMuduo/Acceptor.cpp:67-72 | clears the flag and leaves the start time |
| RotationClasses.TcpServer.Start | ModifiedMuduo/TcpServer.cpp:65-75 | listens on the first call only |
| RotationClasses.TcpServer.AcceptorSchedulingHandler | ModifiedMuduo/TcpServer.cpp:137-154 | inverts the listening flag and stamps the start time only when enabling |
| RotationClasses.TcpServer.AddConnection | ModifiedMuduo/TcpServer.cpp:83-98 | a new connection never takes the number of another |
| RotationClasses.TcpServer.RemoveConnection | ModifiedMuduo/TcpServer.cpp:123-134 | only that connection goes, and the assertion holds exactly if it was there |
| RotationClasses.WorkerProcess.EnableListen | ProxyServer/ProxyServer.cpp:23-42 | the worker listens afterwards, as the machine's enable action has it, and the start time is stamped on every call but the first |
| RotationClasses.WorkerProcess.Start | ProxyServer/ProxyServer.cpp:8-21 | with a free byte the worker owns it and listens, with a taken one nothing changes; a run of the machine back to the event loop |
| RotationClasses.WorkerProcess.AcceptorScheduling | Process/WorkerProcess.cpp:59-64 | the byte is free, the flag clear, and only the neighbour's eventfd has grown, by what this worker writes; as the machine does |
| RotationClasses.WorkerProcess.EventHandler | Process/WorkerProcess.cpp:71-82 | afterwards the handler is installed, the own eventfd drained and no other changed, and the worker listens if the byte was free; as the machine does |
| RotationClasses.WorkerProcess.NewConnection | ModifiedMuduo/TcpServer.cpp:78-115 | beyond the connection and time thresholds the worker stops listening and hands over to its neighbour, or is gone without a handler; otherwise it is as before with one connection more |
| RecencyCache.OperationsKeepDistinct | cache/LRU.h:28-91 | put, get, erase of expired items and copying keep urls distinct and the size bounded |
| RecencyCache.PutStores | cache/LRU.h:45-65 | after a put the url holds the new content, nothing else changed content, and nothing left unless the cache was full |
| RecencyCache.GetLaw | cache/LRU.h:67-80 | a get answers an item of at most 2^31 - 1 seconds and makes it the last, drops an older one, and changes nothing for a url that is not there |
| RecencyCache.PutThenGet | cache/LRU.h:45-80 | a get after a put answers the content up to that age and nothing after it |
| RecencyCache.PutAsWrittenIffNoEviction | cache/LRU.h:52-58 | put as written returns if and only if nothing has to be evicted, and then agrees with the counted loop |
| LruTrace.TraceAsWrittenIffRoom | cache/LRU.h:45-80 | without expiry a trace of the code as written is defined if and only if there is room for every url that is put, and then leaves what the counted loop leaves |
| LruIndex.Lru.Copy | cache/LRU.h:28-42 | the copy's list and rebuilt map agree and hold the same items, stamped with the current time |
| LruIndex.Lru.Put | cache/LRU.h:45-65 | list and map still agree and stand for the recency sequence after the put, with the eviction loop counting down |
| LruIndex.Lru.PutAsWritten | cache/LRU.h:45-65 | with the loop as written, agrees with its specification, and where that is undefined the list has been emptied |
| LruIndex.Lru.Get | cache/LRU.h:67-80 | list and map still agree; an item of at most 2^31 - 1 seconds is answered and becomes the last, an older one is gone, a missing url changes nothing |
| LruIndex.Lru.Erase | cache/LRU.h:82-91 | list and map still agree, without the url; a missing url changes nothing |
| LruIndex.AgreeMeansDistinct | cache/LRU.h:82-91 | agreement of positions and nodes gives distinct urls |
| LruIndex.EraseAgrees | cache/LRU.h:82-91 | erasing a node and its key keeps positions and nodes in bijection and drops exactly that item |
| LruIndex.SpliceAgrees | cache/LRU.h:78-79 | splicing a node to the end invalidates no position and moves exactly that item |
| LruTrace.ListIsLastDistinctUrls | cache/LRU.h:45-80 | without expiry the list is always the last maxSize_ distinct urls put or hit |
| LruTrace.ContentIsLastPut | cache/LRU.h:45-65 | what is cached for a url is what was last put for it, with or without expiry |
| LruTrace.TimeIsLastStamp | cache/LRU.h:37-62 | the time an item carries is when its url was last put or the cache last copied |
| LruTrace.RoomKeepsAll | cache/LRU.h:45-80 | without expiry and with room for every url that was put, each of them is cached |
| LruTrace.RunsAreIncluded | cache/LRU.h:45-80 | the smaller of two caches on one trace is the larger restricted to its own urls, and full unless as large |
| LruTrace.LargerCacheHitsMore | cache/LRU.h:45-80 | it is a subsequence of the larger, and its hits are hits there with the same content |
| CopyOnWrite.StepKeepsCounted | cache/memoryCache.h:25-47 | every interleaved step keeps use counts equal to the pointers held and the mutex held by one thread |
| CopyOnWrite.StepKeepsHeld | cache/memoryCache.h:25-47 | every step keeps each held snapshot equal to its object up to expired items |
| CopyOnWrite.LookupAgrees | cache/LRU.h:67-80 | a lookup that misses only expired items answers as the snapshot does |
| CopyOnWriteReads.UniquenessAssertionsHold | cache/memoryCache.h:31-44 | in every reachable state a reader at its assertion sees the pointer shared, a writer at its own sees it unshared |
| CopyOnWriteReads.WritersLeaveReadersAlone | cache/memoryCache.h:39-45 | no step other than a get changes or deletes an Lru that a reader holds |
| CopyOnWriteReads.PublishedIsAReplay | cache/memoryCache.h:25-47 | in every reachable state the published cache is the replay of its log of puts, gets and copies, and without expiry lists the last maxSize_ distinct urls put or hit in it |
| CopyOnWriteReads.ReadsAreLinearizable | cache/memoryCache.h:25-47 | every read answers what the sequential cache, replaying the log up to the copying of the pointer, answers: nothing, or the last content put; that content exactly while the url is cached and was put or copied at most 2^31 - 1 seconds ago, and when there is room and no expiry |
| MemoryCacheClass.MemoryCache.ReadCache | cache/memoryCache.h:25-35 | answers and reorders by the age of the item as get does, and leaves the pointer unshared again |
| MemoryCacheClass.MemoryCache.WriteCache | cache/memoryCache.h:36-47 | a held Lru is left unchanged and a fresh copy published, an unshared one is put into directly |
| MemoryCacheClass.WriteCallIsARun | cache/memoryCache.h:36-47 | an undisturbed write call is a run of the interleaved machine with the same result |
| MemoryCacheClass.ReadCallIsARun | cache/memoryCache.h:25-35 | an undisturbed read call is a run of the interleaved machine with the same answer, order and use count |
| HttpText.FindCrlf | Http/_HttpContext.cpp:52-52 | the first line end from a position, or the end |
| HttpText.LinesEndWithCrlf | Http/_HttpContext.cpp:75-76 | a line ends at the first CR that LF follows |
| HttpText.AtoiInvertsDecimal | Http/_HttpContext.cpp:85-85 | atoi inverts decimal rendering after any white space |
| HttpText.AtoiReadsSign | Http/_HttpContext.cpp:85-85 | a sign before the digits negates or keeps the value |
| HttpFraming.FrameFits | Http/_HttpContext.cpp:99-106 | a complete request has at least four bytes and ends inside the buffer |
| HttpFraming.LineAcceptedIff | Http/_HttpContext.cpp:10-31 | a request line is accepted if and only if some space is followed, later, by something else |
| HttpFraming.LineParts | Http/_HttpContext.cpp:10-31 | the method of an accepted line is what precedes its first space, the url what follows the spaces up to the next one or the end |
| HttpFraming.FrameIgnoresWhatFollows | Http/_HttpContext.cpp:47-122 | the bytes of a complete request followed by anything parse to the same length, method and url |
| HttpFraming.ShorterPrefixIsIncomplete | Http/_HttpContext.cpp:47-122 | no shorter prefix of a complete request parses |
| HttpFraming.FramesArePrefixFree | Http/_HttpContext.cpp:47-122 | no frame is a proper prefix of another |
| HttpFraming.ReturnedLengthIsExact | Http/_HttpContext.cpp:122-122 | on buffers that fit an int the narrowed length is the frame's end |
| HttpFraming.NarrowsTo32Bits | Http/_HttpContext.cpp:122-122 | the returned length is congruent to the end modulo 2^32 and in the range of an int |
| HttpFraming.BufferSplits | ProxyServer/ProxyServer.cpp:103-163 | every buffer is its frames followed by a tail without a complete request |
| HttpFraming.SplitIsUnique | ProxyServer/ProxyServer.cpp:103-163 | and in no other way |
| HttpRender.ColonFreeLineEndsHeaders | Http/_HttpContext.cpp:79-92 | a line without a colon ends the headers, empty or not |
| HttpRender.ScansLines | Http/_HttpContext.cpp:72-97 | the scan of header lines ends after the first line without a colon, with the size the last length header gives |
| HttpRender.CompleteIffBodyIsThere | Http/_HttpContext.cpp:35-124 | an accepted request line, headers and a line without a colon make a complete request if and only if the announced bytes follow |
| HttpRender.NegativeLengthNeverCompletes | Http/_HttpContext.cpp:85-115 | on buffers that fit an int a request whose last length is negative never completes |
| HttpRender.ReadsRequestLine | Http/_HttpContext.cpp:10-31 | a rendered request line is read back as its method and url |
| HttpRender.RoundTrip | Http/_HttpContext.cpp:35-124 | a rendered request, with or without a Content-Length, followed by any bytes parses to its exact length, method and url |
| HttpContextClass.HttpContext.Reset | Http/_HttpContext.h:42-47 | the context is as newly built |
| HttpContextClass.HttpContext.PassSpaces | Http/_HttpContext.cpp:21-22 | the unbounded loop over spaces stays in bounds because of the CR at the end |
| HttpContextClass.HttpContext.PraseRequestLine | Http/_HttpContext.cpp:10-31 | appends the line's method and url to the context and accepts exactly the lines specified |
| HttpContextClass.HttpContext.HeaderBranch | Http/_HttpContext.cpp:72-97 | one turn of the header loop reads one line as specified and moves past it |
| HttpContextClass.HttpContext.ParseRequest | Http/_HttpContext.cpp:35-124 | terminates in bounds for every buffer with the specified verdict, length, method and url, and never reaches the state gotAll asks for |
| Pipeline.EachFrameIsSettledOnce | ProxyServer/ProxyServer.cpp:107-161 | every handled frame is either answered or forwarded and never both |
| Pipeline.HandledAndLeftAreTheBuffer | ProxyServer/ProxyServer.cpp:103-163 | handled frames and remaining bytes make up the buffer, and what remains has no complete request while connected |
| Pipeline.ForwardsExactlyTheFrames | ProxyServer/ProxyServer.cpp:103-163 | k frames and an incomplete tail, connected and with no hit: exactly the frames are forwarded in order and the tail stays |
| Pipeline.AssertedIsAlone | ProxyServer/ProxyServer.cpp:160-160 | with the copy at the front of the live buffer, the assertion holds throughout if and only if at most one frame is forwarded, it is the last handled and nothing is behind it |
| Pipeline.AssertionNeedsASingleRequest | ProxyServer/ProxyServer.cpp:160-160 | without cache hits that means that the live buffer is a single request |
| Pipeline.StandardGetIsNeverCached | ProxyServer/ProxyServer.cpp:107-107 | a request whose method is "GET", with or without a body, is never answered from the cache |
| Pipeline.RequestIsServed | ProxyServer/ProxyServer.cpp:107-161 | a well-formed request is answered with what the cache holds for its url, and not forwarded, if and only if its method is "Get" and the cache holds something; otherwise it is forwarded byte for byte with its url and not answered |
| Pipeline.RequestsAreServed | ProxyServer/ProxyServer.cpp:103-163 | well-formed requests one behind the other are answered and forwarded so, in order, and an incomplete tail stays |
| ConnectionRuns.FramesContinue | ProxyServer/ProxyServer.cpp:90-90 | more bytes behind a buffer leave its frames as they are and continue its tail |
| ConnectionRuns.CuttingDoesNotMatter | ProxyServer/ProxyServer.cpp:79-92 | however a stream is cut into messages, if each is handled before the next arrives the same frames are handled in the same order |
| ConnectionRuns.CalmRunsHandleTheStream | ProxyServer/ProxyServer.cpp:79-163 | over every run in which no message arrives while a copy still has a frame to be handled, the frames of the stream are handled in order, once and each from its own place, and the live buffer holds the rest |
| ConnectionRuns.HandledOnceIffCalm | ProxyServer/ProxyServer.cpp:79-163 | over every run in which all tasks have ended, the stream is handled so if and only if no message arrived in that situation, and exactly otherwise a frame is handled twice from one place of the stream |
| ConnectionRuns.TasksHandleTheirCopies | ProxyServer/ProxyServer.cpp:103-163 | in any interleaving, and whatever the live buffer holds, tasks handle exactly the frames of their copies |
| ConnectionRuns.HandledAfterMessage | ProxyServer/ProxyServer.cpp:79-163 | after a calm run and one more message, tasks in any interleaving handle the frames of the stream and once more those the live buffer already held |
| ConnectionRuns.TwoQuickRequests | ProxyServer/ProxyServer.cpp:79-163 | from the empty connection, two requests in quick succession forward the first one twice |
| ConnectionRuns.QuickStartLosesARequest | ProxyServer/ProxyServer.cpp:79-163 | from the empty connection, a request followed too soon by the start of another is handled twice and nothing is ever handled at the place of the other |
| ConnectionRuns.TaskIsARun | ProxyServer/ProxyServer.cpp:97-163 | a task that runs to its end without a break is a run of the machine |
| PipelineClass.Connection.Turn | ProxyServer/ProxyServer.cpp:107-162 | one turn answers, forwards, asks for the tunnel or waits for it, and only in the first two cases consumes the frame and resets the context |
| PipelineClass.Connection.Iterate | ProxyServer/ProxyServer.cpp:103-162 | one turn with its condition keeps the frames handled, the logs, the live buffer, the tunnel and the outcome of the assertions in agreement; a frame that waits is not parsed again |
| PipelineClass.WhereItStands | ProxyServer/ProxyServer.cpp:103-162 | a loop that has ended has handled all it should and needed no tunnel that never comes up; one that has not is short of its bound, or stuck behind the first missed frame |
| PipelineClass.Connection.SolveOnMessage | ProxyServer/ProxyServer.cpp:97-175 | the loop ends if and only if no frame needs a tunnel that never comes up, and otherwise stays where it is for any number of turns; when it ends it has forwarded the missed frames byte for byte in order with their urls, answered the cached ones, left exactly the rest, asked for at most one tunnel and parsed each frame once |
| PipelineClass.Connection.OnServerMessage | ProxyServer/ProxyServer.cpp:79-95 | the copy is everything in the live buffer, as the machine of messages and tasks has it |
| PipelineClass.Connection.RunTask | ProxyServer/ProxyServer.cpp:97-175 | a task whose loop ends, on a connection that is up, does what an unbroken run of that task does in the machine, and logs what its frames call for |

## Left out

- `LruIndex.Lru.Put`: counts the eviction loop down, which the source does not; the source's loop is `PutAsWritten`. `LruTrace` and `CopyOnWrite` use the counted loop.
- `CopyOnWriteReads.ReadsAreLinearizable`: `get` and the copy constructor are one step each. In the source `get` reorders the list outside the mutex, beside other readers and a copying writer; that data race is not modelled.
- `LruIndex.Lru.Copy`: `size_` is neither modelled nor used; the constructor leaves it unset.
- `RingClasses.CircleQueue.TryReadSpaceByCV`: that it waits is an outcome of the call; the wake-ups of the condition variable are not modelled.
- `ProcessMutexModel.ProcessMutex.Lock`: the spin is watched for a number of turns in which nobody else touches the byte; what other processes do between its turns is in the machine, where each turn is a step.
- `PipelineClass.Connection.SolveOnMessage`: what the cache answers is fixed during one call, a tunnel that is up stays up during it, and the live buffer changes only through the call itself.
- `ConnectionRuns.CalmRunsHandleTheStream`: handling one frame is one step, on a connection that stays up and with a tunnel that comes up; what two tasks do to the buffer inside such a step is not modelled.
- `PipelineClass.Connection.Forward`: a failed assertion is recorded and the loop goes on, as it does where assertions are compiled out. Retrieving more than the live buffer holds empties it; muduo's `Buffer` is not part of this model.
- `HttpText.AtoiInvertsDecimal`: `atoi` is a mathematical integer reduced to 32 unsigned bits; a value outside `int` is undefined in the source.
- `RotationClasses.WorkerProcess.NewConnection`: connections are the numbers in their names; their sockets, callbacks and loops are not modelled.
- The ring's logical indices do not overflow; in the source they are 64-bit.
- The eventfd counter does not overflow, and the entry behind the last ring slot is read as waking nobody.
- The clock is monotone, memory is sequentially consistent, and sockets, epoll, logging and buffers are reduced to what the methods read and write.
- The Redis client and the two-level cache over it: the external store's semantics are not in this code.
- The tunnel's water marks and response caching: they rest on callbacks that are not shown, and the completeness test they use is a stub.
- The master process: forking, shared-memory set-up and signals are system calls; only the ring's size is used.
- The memory probe, the event-loop threads and the round-robin choice of loops are not modelled.
