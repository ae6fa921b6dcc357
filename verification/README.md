# A verified model of the dedup pipeline and the graph kernels

This project models the algorithms of the repository in Dafny and proves what they are for. Harness code (processes,
perf, huge pages, statistics) is not modelled.

**dedup** (`applications/launch/dedup`). `Records`, `Chunking` and `Serial` hold the archive format, the decoder, the
cutting of the input and the serial pipeline. `Places`, `Pipeline` and the `Pipeline*` modules model the five parallel
stages as a transition system in which one step is one critical section: a queue operation, the work of a stage on one
chunk, or one write. Any number of threads interleave freely, queues are bounded, and Reorder writes a chunk only when the
data of its original is compressed. Safety holds for every run that completes: `EveryRunWritesTheSameFile`,
`EveryRunDecodes`, `EveryRunFirstWriter`. Every run ends (`PipelineTermination`), and on an input whose chunks fit into a
queue no run gets stuck before it is complete (`PipelineProgress`). `Ordering` is the logic of Reorder on values, and
`Reorder` shows that the real structures (`SearchTree` of `BinHeap` heaps, joined in `HeapCache`, and the array of counts)
do the same. `Queues`, `HashTable`, `MBuffers`, `Rabin` and `StreamHash` are the data structures and kernels that the
stages use.

**canneal** (`applications/launch/canneal`). `AtomicPtr` is a state machine with one step per atomic access; swaps are
linearizable at the compare-and-set on the higher cell. `Netlist` relates the incremental cost to the recomputed total.

**Graph kernels**. `Graphs`, `Bfs`, `ParallelBfs`, `ParallelBfsProof`, `ParallelBfsTermination`, `Sssp`, `SsspCapacity`,
`PageRank` (`applications/launch`), and `Transpose`, `Grouping`, `Relabelling` (`utils`).

## Conventions

- Code that updates state in place is modelled by classes and by methods over arrays, each proved against a function or
  a property; concurrent code is a transition system. `Codec` stands for SHA-1 and zlib or bzip2: digests have 20 bytes,
  decompression undoes compression, compressed data is not empty. Digests are assumed to differ only for the chunks of the
  input at hand (`CollisionFree`); without compression nothing else is assumed.
- The parallel pipeline is modelled as it is written although `ENABLE_PTHREADS` is commented out in `config.h`. Memory is
  sequentially consistent.
- The serial loop and Fragment's loop are the same function of the input, with a jump of 0 and of ANCHOR_JUMP.

## Where the code and its intent differ

- A gzip or bzip2 chunk longer than 10,000,000 bytes, or any chunk of 2^31 bytes, cannot be decoded; the round-trip
  theorems say exactly when decoding succeeds (`Records.RoundTrip`, `Serial.LongChunkIsLost`).
- Reorder doubles its array of counts once per arrival, so the index is valid only below twice the capacity. It is valid
  for every arrival order exactly if there are at most 2048 coarse chunks (`Ordering.FitsExactly`).
- rabininit is called with a window length of 0. Then the hash is the fingerprint of the last 32 bytes at every step
  exactly if every byte that leaves the window is zero (`Rabin.WindowLengthZero`, with the failing input
  `Rabin.NotTheWindow`); cutting does not depend on that (`Rabin.IsSplitFunction`).
- The worklists of SSSP have five entries per vertex. That is enough for all graphs with given weights exactly if the
  weights are equal (`SsspCapacity.FiveEntriesExactly`), and two vertices can fill any worklist
  (`SsspCapacity.PushesAreUnbounded`).
- hashtable_insert allows duplicate keys; expansion then changes which value is found
  (`HashTable.ExpansionKeepsSearch`).
- calculate_delta_routing_cost is not the change of the total for adjacent elements (`Netlist.DeltaFormula`).
- init_bfs stores through `*in_wl[index]`, which is the worklist only for index 0, the one seed there is.
- Checkin tests a misspelled macro and always uses a plain store; with sequential consistency this makes no difference.

## Model

| member | source | states |
|---|---|---|
| Records.ReadSerialized | applications/launch/dedup/decoder.c:60-98 | Reading undoes writing: after any written record the reader returns exactly that record and the rest of the file; the only records it rejects are data records whose length is not a positive 32-bit int |
| Records.Int32Positive | applications/launch/dedup/decoder.c:60-98 | A 64-bit length survives the conversion to the returned int exactly when it is below 2^31 |
| Records.LittleEndianRoundTrip | applications/launch/dedup/encoder.c:211-224 | The bytes of a length written by write_file read back as the same length |
| Records.WireFormat | applications/launch/dedup/encoder.c:211-224 | A record is the byte 0, the length 20 and the digest, or the byte 1, the length of the data and the data, with the length in eight bytes, least significant first |
| Records.ReadExactly | applications/launch/dedup/decoder.c:60-98 | The reader accepts nothing but what the writer writes: it reports the end exactly of the empty file, and otherwise returns a record that the file begins with, or fails |
| Records.Decode | applications/launch/dedup/decoder.c:213-250 | The decoder loop, with its cache, computes the decoding function for every file, including the failing ones |
| Records.RoundTrip | applications/launch/dedup/decoder.c:213-250 | Decoding the records of any list of chunks gives back their concatenation exactly when every chunk is restorable (not longer than the fixed buffer for gzip and bzip2, length below 2^31), and fails otherwise |
| Records.RestorableInNumbers | applications/launch/dedup/decoder.c:104-165 | Restorable means: below 2^31 bytes, also when compressed, and at most 10,000,000 bytes with zlib or bzip2 |
| Records.FirstWriter | applications/launch/dedup/encoder.c:262-299 | A list of chunks gives one record per chunk: data where a digest occurs for the first time, a fingerprint of that digest everywhere else |
| Chunking.SplitAll | applications/launch/dedup/encoder.c:1103-1157 | The pieces cut from one buffer are non-empty and, with the rest, are the buffer |
| Chunking.ChunksFrom | applications/launch/dedup/encoder.c:1012-1158 | For every input, buffer size and split function: the chunks are non-empty and their concatenation is the input |
| Chunking.SplitAllCuts | applications/launch/dedup/encoder.c:1108-1122 | Where the pieces end: each is as long as the jump and the offset found behind it, which is not the end of the buffer; in the rest nothing more is found |
| Chunking.ChunksAreLong | applications/launch/dedup/encoder.c:1103-1157 | Every chunk of Fragment but the last is longer than the jump |
| Chunking.AnyBufferSize | applications/launch/dedup/encoder.c:1012-1158 | With a split function whose cuts do not depend on what follows, such as rabinseg, the chunks are those of the whole input in one buffer, whatever the buffer size |
| Chunking.SendPieces | applications/launch/dedup/encoder.c:1103-1157 | The inner loop terminates and sends exactly the pieces of the buffer |
| Chunking.Fragment | applications/launch/dedup/encoder.c:1012-1158 | The refill, split and carry-over loop terminates and sends exactly the chunks of the input, in order |
| Chunking.Refine | applications/launch/dedup/encoder.c:664-724 | The fine chunks of a coarse chunk are non-empty and concatenate to it |
| Chunking.RefineAll | applications/launch/dedup/encoder.c:664-724 | Refining every coarse chunk keeps the concatenation of all chunks |
| Chunking.SerialIsRefinement | applications/launch/dedup/encoder.c:777-952 | With such a split function the serial pipeline cuts from the input exactly what FragmentRefine would cut from it in one piece |
| Serial.Archive.constructor | applications/launch/dedup/encoder.c:231-249 | A new archive has an empty database and no records |
| Serial.Archive.Put | applications/launch/dedup/encoder.c:475-512 | One chunk adds its digest to the database and to the file exactly the record that the first-writer rule gives |
| Serial.PutPieces | applications/launch/dedup/encoder.c:889-951 | The inner loop of the serial pipeline archives exactly the pieces of the buffer and keeps the rest |
| Serial.SerialEncode | applications/launch/dedup/encoder.c:777-952 | The serial pipeline terminates and writes the records of exactly the chunks of the input, in order |
| Serial.SerialRoundTrip | applications/launch/dedup/encoder.c:777-952 | Decoding the serial file returns the input exactly when every chunk is restorable |
| Serial.LongChunkIsLost | applications/launch/dedup/decoder.c:104-165 | With gzip the round trip fails on any uncut input one byte longer than the decoder buffer |
| Ordering.InBoundsExactly | applications/launch/dedup/encoder.c:1239-1245 | One doubling per arrival makes the array index valid exactly when the coarse number is below twice the capacity |
| Ordering.ReceiveKeeps | applications/launch/dedup/encoder.c:1239-1266 | An arriving chunk is written-next or cached; nothing else changes state, and the invariant of the stage is kept |
| Ordering.CountRecordedOnce | applications/launch/dedup/encoder.c:1247-1250 | The assertion that no count of fine chunks is stored twice never fails |
| Ordering.AdvanceKeeps | applications/launch/dedup/encoder.c:1276-1297 | After a write, next is the true successor although only the counts seen so far are known; no chunk is lost; the cached numbers are all greater than next |
| Ordering.AllArrived | applications/launch/dedup/encoder.c:1301-1330 | When all chunks have arrived, all are written and the cache is empty |
| Ordering.EveryArrivalOrder | applications/launch/dedup/encoder.c:1226-1330 | For every arrival order of a complete set of numbers, the writes follow the successor relation from (0,0) to the end, and the cache is empty at the end |
| Ordering.PathIsSorted | applications/launch/dedup/encoder.c:1269-1298 | Such a sequence of writes is strictly ascending in lexicographic order and contains every existing number once |
| Ordering.FitsExactly | applications/launch/dedup/encoder.c:1239-1250 | The array of counts is long enough for every complete arrival order exactly if there are at most 2048 coarse chunks; otherwise an order that starts with number 2048 writes behind it |
| Places.MoveKeeps | applications/launch/dedup/queue.c:49-111 | Moving items between queues and buffers neither loses nor duplicates a chunk |
| PipelineSteps.ChunkStep | applications/launch/dedup/encoder.c:398-745 | Every step of every stage keeps: each chunk object is in exactly one place or already arrived, its state fits that place, its data is the planned chunk, and the file is the record list of the chunks written so far |
| PipelineShutdown.GroupSize | applications/launch/dedup/encoder.c:1373-1400 | The threads with tid / 4 = q number exactly the producers that queue q is initialized with |
| PipelineShutdown.FourPerQueue | applications/launch/dedup/encoder.c:1373-1400 | In numbers: a quarter as many queues as threads, rounded up, thread t uses queue t / 4, and the last queue gets the threads that are left |
| PipelineShutdown.TerminatedMeansDone | applications/launch/dedup/queue.c:32-47 | A terminated queue has no producer left that can still send |
| PipelineShutdown.NeverEnqueueTerminated | applications/launch/dedup/queue.c:83-111 | No stage enqueues on a terminated queue, although Deduplicate feeds the reorder queues without being counted among their producers |
| PipelineShutdown.ShutdownStep | applications/launch/dedup/queue.c:32-111 | Every step keeps: the termination counter of each queue is the number of its finished producers, finished workers have empty buffers and closed inputs |
| PipelineShutdown.FinishedMeansEmpty | applications/launch/dedup/encoder.c:1226-1237 | When the polling loop of Reorder ends, every queue and buffer of every stage is empty and all coarse chunks were sent |
| PipelineTheorem.RunKeepsInv | applications/launch/dedup/encoder.c:398-1338 | Every state of every interleaving satisfies the data, place and shutdown invariants |
| PipelineTheorem.RoundRobin | applications/launch/dedup/encoder.c:1130-1136 | Fragment sends coarse chunk number k to the queue with the number k modulo the number of queues |
| PipelineTheorem.AssertionsHold | applications/launch/dedup/encoder.c:398-1338 | No assertion of the stages and queues fails in a reachable state: enqueues are on live queues and move at least one item, compressed chunks are uncompressed before, terminations do not exceed producers, counts are recorded once |
| PipelineTheorem.GuardsAreWaiting | applications/launch/dedup/encoder.c:262-284 | Whatever a stage takes from its buffer is in the state that the stage needs, and with at most 2048 coarse chunks the index into the array of counts is valid: steps are then only ever disabled by waiting |
| PipelineTheorem.CountsFit | applications/launch/dedup/encoder.c:1239-1245 | With at most 2048 coarse chunks the array of counts is large enough at every arrival |
| PipelineTheorem.FinishedMeansWritten | applications/launch/dedup/encoder.c:1226-1330 | When Reorder has stopped, every planned chunk was received and written once, and nothing is cached |
| PipelineTheorem.EveryRunWritesTheSameFile | applications/launch/dedup/encoder.c:475-1338 | Every completed run, whatever the interleaving and the number of threads, writes the records that the planned chunks give one after another |
| PipelineTheorem.EveryRunDecodes | applications/launch/dedup/encoder.c:980-1338 | For every input, thread count, split function and completed run: decoding the file gives back the input exactly when every fine chunk is restorable |
| PipelineTheorem.EveryRunFirstWriter | applications/launch/dedup/encoder.c:262-284 | Whichever chunk became the original in the hash table, the file has one data record per digest, at its first occurrence, and fingerprints only after it |
| PipelineProgress.NotFull | applications/launch/dedup/encoder.c:1395-1399 | With no more chunks than a queue holds, no queue fills up |
| PipelineProgress.StageGoes | applications/launch/dedup/encoder.c:398-745 | A stage whose queues are terminated can go on, or is done and has terminated the queues of the next stage |
| PipelineProgress.NothingRaw | applications/launch/dedup/encoder.c:262-284 | When deduplication and compression are done no original is left uncompressed, so Reorder does not wait for one |
| PipelineProgress.NoDeadlock | applications/launch/dedup/encoder.c:398-1338 | On a small input (at most QUEUE_SIZE chunks and 2048 coarse chunks), whenever Reorder has not finished some step of some thread is enabled |
| PipelineProgress.EveryStuckRunIsComplete | applications/launch/dedup/encoder.c:398-1338 | A run on a small input that cannot go on is complete, so its file decodes to the input by EveryRunDecodes |
| PipelineTermination.MeasureFalls | applications/launch/dedup/encoder.c:398-1338 | Every step of every thread lowers a measure: some chunk moves towards the file, or a queue, a thread or a poll comes nearer to its end |
| PipelineTermination.EveryRunEnds | applications/launch/dedup/encoder.c:398-1338 | No run, complete or not and whatever the input, has more steps than a number computed from the numbers of chunks and threads |
| PipelineTermination.EveryRunCompletes | applications/launch/dedup/encoder.c:398-1338 | Every run on a small input, in particular the empty one, can be continued until Reorder has finished; with EveryRunDecodes the file then decodes to the input |
| Queues.RingBuffer.IsEmpty | applications/launch/dedup/queue.h:60-62 | True exactly when the buffer holds nothing |
| Queues.RingBuffer.IsFull | applications/launch/dedup/queue.h:65-68 | True exactly when the buffer holds one element less than it has slots |
| Queues.RingBuffer.Remove | applications/launch/dedup/queue.h:71-83 | Takes the oldest element, or reports an empty buffer and changes nothing |
| Queues.RingBuffer.Insert | applications/launch/dedup/queue.h:87-94 | Adds the newest element, or reports a full buffer and changes nothing |
| Queues.MoveItems | applications/launch/dedup/queue.c:65-75 | Moves as many elements as limit, source and target allow, in order |
| Queues.Queue.Terminate | applications/launch/dedup/queue.c:37-47 | One more producer is finished |
| Queues.Queue.Dequeue | applications/launch/dedup/queue.c:49-81 | Reports termination exactly when the queue is empty and all producers are finished; otherwise moves the longest possible prefix in order |
| Queues.Queue.Enqueue | applications/launch/dedup/queue.c:83-111 | Moves the longest possible prefix of the send buffer to the end of the queue |
| BinHeap.RootIsMin | applications/launch/dedup/binheap.c:103-110 | Heap order makes the root a minimum |
| BinHeap.PercolateUp | applications/launch/dedup/binheap.c:67-71 | The upward loop restores heap order and adds exactly the new element |
| BinHeap.PercolateDown | applications/launch/dedup/binheap.c:85-99 | The downward loop restores heap order and keeps exactly the elements |
| BinHeap.PriorityQueue.Insert | applications/launch/dedup/binheap.c:47-72 | Adds exactly one element, growing the array when it is full |
| BinHeap.PriorityQueue.FindMin | applications/launch/dedup/binheap.c:103-110 | Returns an element with a smallest second-level number, or nothing exactly for the empty heap |
| BinHeap.PriorityQueue.DeleteMin | applications/launch/dedup/binheap.c:74-101 | Removes exactly one element, one with a smallest second-level number, or reports an empty heap and changes nothing |
| SearchTree.TreeFind | applications/launch/dedup/tree.c:28-39 | Returns the heap stored for a key, or nothing |
| SearchTree.TreeFindMin | applications/launch/dedup/tree.c:41-52 | Returns the position with the smallest key, or nothing for the empty tree |
| SearchTree.TreeInsert | applications/launch/dedup/tree.c:63-85 | The tree stands for its map with the key added, unless the key was present |
| SearchTree.TreeDelete | applications/launch/dedup/tree.c:87-128 | The tree stands for its map without the key, also when the node has two children or the key is missing |
| HeapCache.SmallestCached | applications/launch/dedup/encoder.c:1280-1282 | The smallest chunk of the smallest row is the smallest cached chunk, so the test of the loop succeeds exactly when next is the cache minimum |
| HeapCache.Cache.Add | applications/launch/dedup/encoder.c:1253-1266 | Adds exactly one number to the cached set, creating a row when needed |
| HeapCache.Cache.TakeIfNext | applications/launch/dedup/encoder.c:1280-1297 | Takes next out of the cache exactly if it is the smallest cached number; a row that becomes empty leaves the tree |
| Reorder.Stage.Arrive | applications/launch/dedup/encoder.c:1239-1266 | The array of counts and the tree of heaps do what the abstract arrival step says |
| Reorder.Stage.WriteOne | applications/launch/dedup/encoder.c:1271-1297 | One turn of the write loop does what the abstract step says and writes the number that was next |
| Reorder.Stage.Process | applications/launch/dedup/encoder.c:1239-1298 | The turn for one arriving chunk does what the abstract stage does |
| Reorder.Reorder | applications/launch/dedup/encoder.c:1194-1338 | For every arrival order of at most 2048 coarse chunks, and every other one that the array of counts can hold: the numbers are written in strictly ascending order, each once, and the flush loop finds an empty tree |
| HashTable.Table.Search | applications/launch/dedup/hashtable.c:227-242 | Returns the newest value stored for the key |
| HashTable.Table.Insert | applications/launch/dedup/hashtable.c:193-223 | The key gets one more value in front, other keys keep theirs |
| HashTable.Table.SearchOrInsert | applications/launch/dedup/encoder.c:485-509 | Search then insert keeps at most one value per key: the table is a map, and the first value stored remains |
| HashTable.Table.Remove | applications/launch/dedup/hashtable.c:253-284 | Exactly the newest value of the key goes away and is returned |
| HashTable.ChainNumber | applications/launch/dedup/hashtable.c:193-223 | Every entry is in the chain whose number is its hash value modulo the length of the table |
| HashTable.Table.Expand | applications/launch/dedup/hashtable.c:133-157 | Moving all chains into a table more than one and a half times as long keeps the values of every key, in reversed order |
| HashTable.ExpansionKeepsSearch | applications/launch/dedup/hashtable.c:146-155 | A search finds the same value after expansion exactly when the oldest and the newest value of the key agree, in particular for unique keys |
| MBuffers.OnlyView | applications/launch/dedup/mbuffer.c:233-253 | A counter of one means that no other view sees the block |
| MBuffers.OverlapIsSharedByte | applications/launch/dedup/mbuffer.c:268-299 | Two views are disjoint exactly if no byte lies in both |
| MBuffers.Subsystem.Create | applications/launch/dedup/mbuffer.c:99-124 | A new block with one view, or no change when an allocation fails |
| MBuffers.Subsystem.Clone | applications/launch/dedup/mbuffer.c:127-158 | A second view of the same bytes, counted |
| MBuffers.Subsystem.Split | applications/launch/dedup/mbuffer.c:268-299 | The two views hold together exactly the bytes of the one before; disjointness of views is kept |
| MBuffers.Subsystem.Free | applications/launch/dedup/mbuffer.c:187-216 | The block is released exactly when its last view is freed; other views keep their bytes |
| MBuffers.Subsystem.Realloc | applications/launch/dedup/mbuffer.c:220-264 | Succeeds exactly for the only view at the start of its block; no other view changes or moves, and the old bytes are kept as far as both sizes reach |
| Rabin.Reduce | applications/launch/dedup/rabin.c:24-35 | The bit loop multiplies by t^32 modulo the polynomial |
| Rabin.MakeReductionTable | applications/launch/dedup/rabin.c:37-43 | Every entry is its index times t^32 |
| Rabin.TableIsBitSerial | applications/launch/dedup/rabin.c:82-86 | For every fingerprint and byte, the table update is the bit-serial reduction of h * t^8 + b |
| Rabin.WindowReduce | applications/launch/dedup/rabin.c:45-54 | The entry of the window table is the byte times t^(8 * (winlen - 1)), and the byte itself for a length of 0 or 1 |
| Rabin.MakeWindowTable | applications/launch/dedup/rabin.c:56-62 | All entries of the window table are such multiples |
| Rabin.RollIsWindow | applications/launch/dedup/rabin.c:81-99 | With tables made for NWINDOW, the hash at every step is the fingerprint of exactly the last 32 bytes |
| Rabin.WindowLengthZero | applications/launch/dedup/encoder.c:767-768 | With the tables of the callers (window length 0) the hash is the fingerprint of the last 32 bytes at every step exactly if every byte that leaves the window is zero |
| Rabin.FixedByte | applications/launch/dedup/rabin.c:45-54 | Zero is the only byte that multiplication by t^248 does not change |
| Rabin.NotTheWindow | applications/launch/dedup/rabin.c:81-99 | A failing input: after the byte 1 and a window of any bytes the hash is not the fingerprint of the window |
| Rabin.FirstCut | applications/launch/dedup/rabin.c:87-99 | The result is the first position with clear mask bits, or the end |
| Rabin.Rabinseg | applications/launch/dedup/rabin.c:72-100 | The loop computes the first cut, and the whole buffer when it is shorter than the window |
| Rabin.IsSplitFunction | applications/launch/dedup/rabin.c:72-100 | For any tables, rabinseg returns an offset between 1 and the length of a non-empty buffer, which is all that Fragment and FragmentRefine need |
| Rabin.CutExactly | applications/launch/dedup/rabin.c:72-100 | Buffers of fewer than 32 bytes are not cut; longer ones at the first position from 32 on where the low twelve bits of the hash are zero, or at the end |
| Rabin.BitsOf | applications/launch/dedup/rabin.c:72-72 | The buffer is read byte by byte as numbers of eight bits, each with the value of its byte |
| Rabin.IsStable | applications/launch/dedup/rabin.c:72-100 | A cut found before the end of the buffer does not depend on the bytes that follow |
| StreamHash.AbsorbParts | applications/launch/dedup/openssl/md32_common.h:282-338 | A message absorbed in two parts, with the rest of the first carried over, gives the same state |
| StreamHash.CountCarries | applications/launch/dedup/openssl/md32_common.h:291-297 | The two words of the counter hold the bit count modulo 2^64 after any length, with the carry found by comparison |
| StreamHash.BigEndianRoundTrip | applications/launch/dedup/openssl/md32_common.h:232-236 | The eight bytes of a 64-bit number, most significant first, have that number as their value |
| StreamHash.PaddedLayout | applications/launch/dedup/openssl/md32_common.h:347-371 | The padded message is the message, the byte 0x80, the fewest zero bytes that make the length a multiple of 64, and the bit count modulo 2^64, most significant byte first: section 5.1.1 of FIPS 180-4 |
| StreamHash.HashContext.Update | applications/launch/dedup/openssl/md32_common.h:282-338 | After any piece the context is as if all pieces had come in one: whole blocks absorbed, the rest buffered, the counter exact |
| StreamHash.HashContext.Final | applications/launch/dedup/openssl/md32_common.h:347-383 | The digest is the fold of the block function over the padded message of section 5.1.1 of FIPS 180-4 |
| StreamHash.HashPieces | applications/launch/dedup/openssl/md32_common.h:282-383 | However a message is cut into pieces, the result is the hash of the message in one piece |
| AtomicPtr.CommitKeeps | applications/launch/canneal/AtomicPtr.h:123-136 | The successful compare-and-set on the higher cell exchanges the two values that the cells stand for, at once |
| AtomicPtr.StepKeeps | applications/launch/canneal/AtomicPtr.h:123-150 | Every atomic access of Swap and TrySwap keeps the refinement of the atomic cells |
| AtomicPtr.RunKeepsInv | applications/launch/canneal/AtomicPtr.h:226-274 | After every run the cells stand for the initial contents after the committed swaps, in the order of their commits |
| AtomicPtr.QuiescentIsSerial | applications/launch/canneal/AtomicPtr.h:226-274 | Linearizability: with no operation running the cells hold what the committed swaps give one after another, and each thread has committed exactly the swaps that returned to it, in its order |
| AtomicPtr.SwapSwaps | applications/launch/canneal/AtomicPtr.h:226-243 | In every run, from the start of a Swap to its end the swaps returned to its thread, and the commits of its thread, grow by exactly the swap of its two cells |
| AtomicPtr.OperationOutcome | applications/launch/canneal/AtomicPtr.h:226-274 | A TrySwap ends in the same way, or without any swap, and then it found a cell checked out or changed |
| AtomicPtr.TrySwapNeverWaits | applications/launch/canneal/AtomicPtr.h:247-274 | A TrySwap ends after at most five steps of its own thread, whatever the other threads do |
| AtomicPtr.RunConserves | applications/launch/canneal/AtomicPtr.h:226-243 | The values in cells and in the hands of threads together are always the initial pointers |
| AtomicPtr.SomeoneIsFree | applications/launch/canneal/AtomicPtr.h:191-204 | In every reachable state with an unfinished operation some thread does not wait, by the order of the addresses |
| AtomicPtr.FinishThread | applications/launch/canneal/AtomicPtr.h:226-274 | A thread that needs no cell of another one finishes its operation when it runs alone: with its swap if it is a Swap or what it has loaded is still there |
| AtomicPtr.CanFinish | applications/launch/canneal/AtomicPtr.h:226-243 | From every reachable state some schedule finishes all running operations, each Swap with exactly its swap |
| AtomicPtr.SelfSwapWaitsForever | applications/launch/canneal/AtomicPtr.h:226-243 | In every run after the start of a blocking swap of a cell with itself, whatever the other threads do, that swap has not ended, which is why the cells must differ |
| Netlist.Chip.constructor | applications/launch/canneal/netlist.cpp:162-183 | Element x * max_y + y gets the place (x, y) of the grid |
| Netlist.Chip.CreateElemIfNecessary | applications/launch/canneal/netlist.cpp:222-238 | A known name gives its element, a new name the next unused one |
| Netlist.Chip.AddFanin | applications/launch/canneal/netlist.cpp:206-213 | fanin and fanout stay the two views of one list of nets |
| Netlist.DistIsShortest | applications/launch/canneal/netlist_elem.cpp:58-65 | The distance of two places is the least number of unit steps on the grid between them |
| Netlist.DistInCoordinates | applications/launch/canneal/netlist_elem.cpp:58-65 | It is the sum of the absolute differences of the coordinates |
| Netlist.OneNet | applications/launch/canneal/netlist_elem.cpp:51-70 | A single net costs the steps between its two ends, for either end and in the total |
| Netlist.Chip.RoutingCostGivenLoc | applications/launch/canneal/netlist_elem.cpp:51-70 | The loops compute the cost of the element at the place |
| Netlist.Chip.SwapCost | applications/launch/canneal/netlist_elem.cpp:75-99 | The difference of the costs at the new and the old place |
| Netlist.Chip.CalculateDelta | applications/launch/canneal/annealer_thread.cpp:119-128 | The sum of both differences, each with the other element still at its old place |
| Netlist.CountedTwice | applications/launch/canneal/netlist.cpp:51-61 | The sum over all elements is twice the wire length |
| Netlist.Chip.TotalRoutingCost | applications/launch/canneal/netlist.cpp:51-61 | The total is the wire length of all nets |
| Netlist.DeltaFormula | applications/launch/canneal/annealer_thread.cpp:119-128 | The estimate is the true change of the total, less twice the distance for each net joining the two elements, plus twice the distance for each net from one of them to itself |
| Netlist.DeltaIsExact | applications/launch/canneal/annealer_thread.cpp:119-128 | The estimate is exact exactly when these nets balance; without self-nets, exactly for elements that no net joins |
| Netlist.Chip.SwapLocations | applications/launch/canneal/netlist.cpp:81-85 | The two places are exchanged, all places stay different |
| Netlist.Chip.Move | applications/launch/canneal/annealer_thread.cpp:68-88 | A move changes the total by its estimate exactly when these nets balance |
| Bfs.InitBfs | applications/launch/bfs/bfs.h:23-35 | All entries are -1 but the seed, which is the worklist |
| Bfs.LabelIsDistance | applications/launch/bfs/bfs.h:67-75 | A label given through an edge from the frontier is the hop distance |
| Bfs.EpochDone | applications/launch/bfs/bfs.h:61-85 | After an epoch every vertex of the next distance has its label |
| Bfs.SearchDone | applications/launch/bfs/bfs.h:61-85 | With an empty frontier every reachable vertex has its distance and the others have none |
| Bfs.PushEpoch | applications/launch/bfs/bfs.h:64-77 | An epoch labels exactly the next distance and lists its vertices once, within the worklist |
| Bfs.Bfs | applications/launch/bfs/bfs.h:58-86 | The search terminates with the hop distance of every vertex, or -1 |
| Bfs.FinalUnique | applications/launch/bfs/bfs.h:58-86 | Hop distances are determined by graph and seed |
| ParallelBfsProof.AccessesInBounds | applications/launch/parallel/bfs/bfs.h:63-101 | No step of any thread leaves an array |
| ParallelBfsProof.CasKeeps | applications/launch/parallel/bfs/bfs.h:76-78 | A successful compare-and-swap keeps the invariant of the epoch, with the entry half written |
| ParallelBfsProof.FetchKeeps | applications/launch/parallel/bfs/bfs.h:80-80 | fetch_add gives the next slot to exactly one labelled vertex |
| ParallelBfsProof.PutKeeps | applications/launch/parallel/bfs/bfs.h:81-81 | The slot gets its vertex |
| ParallelBfsProof.Release1Keeps | applications/launch/parallel/bfs/bfs.h:86-91 | When all threads are at the first barrier the labels are complete for the next distance and the worklist is exactly its vertices |
| ParallelBfsProof.Release2Keeps | applications/launch/parallel/bfs/bfs.h:91-98 | After the second barrier all threads start the next epoch with the same worklist |
| ParallelBfsProof.NoDeadlock | applications/launch/parallel/bfs/bfs.h:63-101 | Until all threads have returned, some thread can go on or a barrier opens |
| ParallelBfsProof.EveryRunIsCorrect | applications/launch/parallel/bfs/bfs.h:63-101 | For every number of threads and interleaving the final entries are complete and are the hop distances, and every reached vertex but the seed takes exactly one worklist slot in the whole run |
| ParallelBfsProof.SameAsSequential | applications/launch/parallel/bfs/bfs.h:63-101 | The result equals that of the sequential search |
| ParallelBfsTermination.MeasureFalls | applications/launch/parallel/bfs/bfs.h:63-101 | Every step of every thread and every opening of a barrier lowers a measure |
| ParallelBfsTermination.EveryRunEnds | applications/launch/parallel/bfs/bfs.h:63-101 | No run has more steps than a number computed from the sizes of the graph and the number of threads |
| ParallelBfsTermination.EveryRunCompletes | applications/launch/parallel/bfs/bfs.h:63-101 | Every run can be continued until all threads have returned |
| PageRank.PushKeepsBalance | applications/launch/pagerank/pagerank.h:94-112 | Pushing one vertex keeps: residuals are exactly what x lacks to solve the linear system, with self-loops, repeated edges and dangling vertices |
| PageRank.InitialBalance | applications/launch/pagerank/pagerank.h:38-61 | The initial residuals balance the initial ranks |
| PageRank.Init | applications/launch/pagerank/pagerank.h:38-61 | The initialization establishes the balance and bounds the total residual |
| PageRank.PushEdge | applications/launch/pagerank/pagerank.h:101-111 | One edge adds to one residual; the worklist stays exactly the vertices with a large one, each once, within n entries |
| PageRank.PushVertex | applications/launch/pagerank/pagerank.h:94-112 | A pop keeps the balance and lowers the total residual by at least (1 - alpha) times the popped one |
| PageRank.PushEpoch | applications/launch/pagerank/pagerank.h:93-113 | An epoch pops every residual of the worklist once |
| PageRank.NextEpoch | applications/launch/pagerank/pagerank.h:115-124 | At the start of every epoch after the first the worklist is duplicate-free and exactly the vertices with a residual of at least epsilon, and every other residual array entry is below epsilon |
| PageRank.EpochPaid | applications/launch/pagerank/pagerank.h:91-125 | Every pop after the first epoch takes (1 - alpha) * epsilon from the total |
| PageRank.PageRank | applications/launch/pagerank/pagerank.h:86-126 | The kernel terminates after at most n * (1 + alpha^2 / epsilon) pops, and on exit the defect of the linear system is in [0, 2 * epsilon) everywhere |
| Sssp.ImproveKeeps | applications/launch/sssp/sssp.h:67-77 | Relaxing an edge keeps: finite distances are weights of paths, and every vertex that is not pending has only relaxed edges |
| Sssp.PathIsBounded | applications/launch/sssp/sssp.h:61-87 | With nothing pending no path is shorter than the distance |
| Sssp.PushNode | applications/launch/sssp/sssp.h:64-78 | The edge loop computes the relaxation of all edges of one vertex and stays within a worklist that is long enough for it |
| Sssp.PushEpoch | applications/launch/sssp/sssp.h:64-79 | An epoch computes the relaxations of the listed vertices in order and leaves only the vertices listed for the next one pending |
| Sssp.EpochPaid | applications/launch/sssp/sssp.h:67-77 | Every push of an epoch lowers the sum of all distances |
| Sssp.Sssp | applications/launch/sssp/sssp.h:58-88 | With worklists that are long enough for the run, no store leaves them and the kernel terminates with min(WEIGHT_MAX, weight of a shortest path) for every vertex |
| SsspCapacity.AlwaysFits | applications/launch/sssp/sssp.h:58-88 | Worklists of nodes * WEIGHT_MAX entries are long enough for every graph |
| SsspCapacity.EqualWeightsFit | applications/launch/sssp/sssp.h:8-9 | If all weights are equal, no epoch lists more entries than there are vertices |
| SsspCapacity.TwoWeightsOverflow | applications/launch/sssp/sssp.h:72-77 | For any two different weights a graph of 187 vertices with only these weights lists 936 vertices in one epoch, more than five per vertex |
| SsspCapacity.FiveEntriesExactly | applications/launch/sssp/sssp.h:8-9 | The five entries per vertex are enough for all graphs with the weights a and b exactly if a and b are equal |
| SsspCapacity.PushesAreUnbounded | applications/launch/sssp/sssp.h:8-9 | Two vertices and k edges make the first epoch list k entries, so no fixed number of entries per vertex is enough for all graphs |
| Transpose.CountIncoming | utils/graph.h:112-144 | The loop counts the incoming edges of every vertex |
| Transpose.PrefixSums | utils/graph.h:148-150 | The counts become the ends of the columns |
| Transpose.ScatterStep | utils/graph.h:169-176 | Placing one edge writes a slot that was unwritten and keeps every column sorted and complete so far |
| Transpose.Convert | utils/graph.h:90-188 | The result is the transpose: every edge reversed with its multiplicity, every column in ascending order, every slot written |
| Transpose.TransposeTwice | utils/graph.h:90-188 | Transposing twice gives the original graph with every row sorted, and the original itself if its rows are sorted |
| Grouping.LastGroupNotFull | utils/dbg.cpp:22-38 | Not all vertices can have less than half of the average degree |
| Grouping.SentinelInside | utils/dbg.cpp:41-48 | The sentinel that ends the scan of a group is inside the array, even behind a full group |
| Grouping.GroupExactly | utils/dbg.cpp:29-37 | Group k < 7 holds exactly the vertices whose degree is at least 32 / 2^k times the average and, for k > 0, below 64 / 2^k times it; group 7 the rest |
| Grouping.LabelsByDegree | utils/dbg.cpp:40-49 | Of two vertices the one with the smaller label has the higher degree, or both are in the same group and keep their order |
| Grouping.FindGroup | utils/dbg.cpp:29-37 | The first bound that the degree reaches |
| Grouping.OrderIsRelabelling | utils/dbg.cpp:40-49 | Numbering the vertices group by group is a bijection that puts higher degrees first and keeps the order within a group |
| Grouping.Kernel | utils/dbg.cpp:17-50 | The kernel computes this relabelling |
| Relabelling.Collect | utils/dbg.cpp:88-99 | The nested loops collect every edge once with its new labels |
| Relabelling.Parse | utils/graph.h:57-81 | Reading sorted edges back gives compressed rows that list exactly these edges in this order |
| Relabelling.CountRenamed | utils/dbg.cpp:87-104 | Renaming by a bijection keeps how often each weighted edge occurs |
| Relabelling.Reorder | utils/dbg.cpp:17-104 | Grouping, relabelling, sorting and reading back give an isomorphic weighted graph with every row in ascending order |

## Left out

- PipelineTheorem.EveryRunDecodes: says nothing about runs that do not complete; that there is a way to complete them is proved only for inputs with at most QUEUE_SIZE chunks and 2048 coarse chunks. With more, Reorder can wait for a compression while the bounded queues are full.
- Ordering.EveryArrivalOrder: sequence numbers are unbounded here, while sequence_number_t is a 32-bit word that wraps around.
- Reorder.Reorder: records the numbers of the chunks instead of their bytes; what is written for a number is part of the pipeline model. The arrivals must fit the array of counts, as those of at most 2048 coarse chunks do, because the source would write outside of it otherwise.
- Records.Decode: the file header with its check bit and compression type is read before this loop and is not part of the model; read errors other than a short file are left out.
- Chunking.Fragment: the preloaded input only; read calls, the growth limit SSIZE_MAX and the warning about MAXBUF are left out, and the C int returned by rabinseg is unbounded.
- SearchTree.TreeInsert: keys are unbounded, and the variable pmin, which is never set, is left out.
- BinHeap.PriorityQueue.Insert: the sentinel in slot 0 is modelled by the test for the parent index 0.
- HashTable.Table.Insert: chains are sequences, so the relinking of pointers is not captured, and the decision to expand (a float load factor) is left out: it is compiled only with ENABLE_DYNAMIC_EXPANSION, which hashtable.h:44 leaves undefined; the other way to expand, by realloc, and destroy are left out.
- HashTable.Table.SearchOrInsert: one critical section; that the bucket lock covers the chain is not modelled, because lock and chain use the same index.
- MBuffers.Subsystem.Create: buffers, control blocks and memory blocks are numbers in maps instead of linked structures, so aliasing of the structures themselves is not captured; each call is one critical section; mbuffer_copy is left out.
- StreamHash.HashContext.Update: the bytes of the buffer behind the filled part are only said to be overwritten when needed.
- Rabin.Reduce: fpmkredtab is modelled for the shift 0 that rabininit uses.
- AtomicPtr.RunKeepsInv: Set, TrySet, operators and weak memory ordering are left out; Get by a reader returns a value that the cells stand for by the same invariant.
- Netlist.Chip.SwapCost: the two sums are computed one after the other instead of interleaved; costs are integers, which a double holds exactly up to 2^53. Random choices, acceptance of moves and the file syntax are left out.
- PageRank.PageRank: exact reals for double and float; the quotient for a vertex without edges, which the source computes but does not use, is left out.
- Sssp.Sssp: requires worklists that are long enough for the run, which SsspCapacity relates to the five entries per vertex of the source, and weights that cannot make a 64-bit sum wrap around.
- SsspCapacity.FiveEntriesExactly: for weights up to a sixth of WEIGHT_MAX, so that the distances of the failing graph stay below WEIGHT_MAX; equal weights of any size fit (EqualWeightsFit). Whether a particular graph with different weights fits is not characterized short of running it.
- Bfs.Bfs: hop numbers are unbounded, while they are C ints; one seed, as SEEDS is 1.
- Grouping.Kernel: exact rational arithmetic for the float average and bounds.
- Relabelling.Parse: edge weights pass through text as float in the source and are exact here; the library sort is a parameter with its usual property.
- Transpose.Convert: at least one vertex and a well-formed graph, as the assertions of the source demand.
- SHA-1's block function, gzip and bzip2 are parameters. Out-of-memory exits, statistics, the harness, Python drivers, pin_source and reuse copies, the Mersenne Twister and binary graph files are not part of this model.
