# Verified models of go-util

Dafny models of the data structures and concurrent writers of `go-util`, with proofs of
what the library promises about them. `dafny verify dfyconfig.toml` checks the whole project.

| file | models | main results |
|---|---|---|
| `Bitmap256.dfy` | `bitmap`: a 256-bit set in four words, updated in place | rank (`CountLess`) and select (`FindNthSet`) are inverse; every search is exact |
| `WordOps.dfy`, `RadixKey.dfy` | the packed prefix arithmetic of the radix tree on 64-bit words | a packed word is a byte string; numeric order is byte order |
| `RadixSpec.dfy`, `RadixWalk.dfy`, `RadixSlots.dfy` | the tree as a value, its ordered walk, the dense child list as a map by rank | insert and delete denote map update and removal; a map has one compact tree |
| `RadixTree.dfy` | `radix-tree`: nodes and trees on the heap, updated in place | every operation refines a finite map; iteration is exact and ordered; the shape is a function of the stored map |
| `RingBuffer.dfy` | `ringbuffer` | a queue of bytes in which appends disturb nothing that is buffered |
| `BackgroundFlush.dfy` | `backgroundflush`: double buffer with one flush goroutine | conservation, durable Flush, exact Write, errors only from the underlying Write, no lost wake-up, no deadlock, and when it spins |
| `GroupCommit.dfy` | `parallelwriter.Writer` | whole arguments, written at most once; a nil return means written, and exactly what an error return says; no deadlock |
| `PipelinedFlush.dfy` | `PipelinedFlushWriter` on top of it | a nil return means written and then flushed; errors have a cause; one Write and one Flush at a time |
| `BufferedWriter.dfy` | `BufferedWriter`: operation queue, ring, flusher, coalescing | conservation of the stream, durable Flush, each waiter released once, the first failure is final, a failed Write counts what it wrote, Close stops |
| `MovingCounter.dfy`, `MovingWindow.dfy`, `MovingSamples.dfy` | `movingcounter` | refinement of a plain list of samples for any clock; exactly when that is a window of time, and exactly when an Add panics |
| `CompressedBuffer.dfy` | `compressedbuffer` | read-back of all that was written, whatever the cache holds |
| `BufferPool.dfy` | `bufferpool` | the poison byte suffices for zeroed slices; donated slices are never written or pooled |
| `Failover.dfy` | `failover.Do` | what the calls of f returned is conserved: one result returned, every other closed once |
| `RefContext.dfy` | `refcontext` | the context outlives all it refers to |

The objects that one goroutine uses at a time, or whose methods run wholly under a lock, are
classes whose methods do what the source does; each is proved against a function on values, and
the lemmas are about these functions. The four writers and `Do` are systems of steps
(`Enabled`, `After`, `Run`), a step being what one goroutine does between two points where
another may run; a result about a state that satisfies `Inv` is, by `Safety`, one about
every state of every run with any number of threads, and results about a run quantify over all runs.

Where documentation and code differ the model follows the code: `backgroundflush.NewWriter`
accepts any size, but with a size below 2 `Write` spins (`SmallSizeSpins`);
`movingcounter.NewMovingCounter` accepts any number of buckets, but one that does not divide the
period lets `Add` panic (`PanicsIff`), and before 1970 a sample between two bucket starts can be
dropped or forgotten too soon (`WindowIff`); `bufferpool.Get(0)` panics, and with it a `Writer.Write` of
nothing that joins a batch of nothing (`CrashIff`); and a `Writer.Write` can return the error of a later
batch after its own bytes were written (`LateErrorIsReached`, `FailureIsOwnIff`).

## Model

| member | source | states |
|---|---|---|
| Bitmap256.Set | bitmap/bitmap256.go:16-18 | after Set(pos) exactly pos has been added to the elements |
| Bitmap256.Clear | bitmap/bitmap256.go:21-23 | after Clear(pos) exactly pos has been removed |
| Bitmap256.Count | bitmap/bitmap256.go:41-46 | the number of elements |
| Bitmap256.CountLess | bitmap/countless_switch.go:6-23 | the fall-through sum is the rank: how many elements are below pos |
| Bitmap256.FindNextSet | bitmap/bitmap256.go:56-70 | the least element from pos on, 256 exactly when there is none |
| Bitmap256.FindNextClear | bitmap/bitmap256.go:80-94 | the least non-element from pos on, 256 exactly when there is none |
| Bitmap256.Narrow | bitmap/bitmap256.go:108-149 | one halving step keeps the number of elements before the target |
| Bitmap256.FindNthSet | bitmap/bitmap256.go:98-153 | the halving search over words and within a word returns the select of n |
| Bitmap256.SelectOfRank | bitmap/bitmap256.go:96-98 | select undoes rank: the element with CountLess(p) elements below it is p |
| Bitmap256.RankOfSelect | bitmap/bitmap256.go:96-98 | rank undoes select: what select returns is an element with exactly n below it, or 256 when n is not below the count |
| Bitmap256.WordsExt | bitmap/bitmap256.go:13-13 | two bitmaps with the same elements are the same four words |
| RadixKey.MatchesIff | radix-tree/node.go:47-49 | matchesPrefix holds exactly when the node's prefix bytes begin the key's eight bytes |
| RadixKey.MakePrefixIs | radix-tree/node.go:26-33 | the packed word holds the length and the first bytes of the key, for lengths 0 (a shift by 64) to 7 |
| RadixKey.NodeKeyIs | radix-tree/node.go:35-37 | a node's key is its prefix bytes followed by zeros |
| RadixKey.PackedUnique | radix-tree/node.go:10-11 | equal prefix bytes have equal packed words |
| RadixKey.OrderIff | radix-tree/node.go:128-128 | numeric order of keys is lexicographic order of their big-endian bytes |
| RadixKey.BytesInjective | radix-tree/node.go:47-57 | a key is determined by its bytes |
| RadixKey.CommonPrefixIs | radix-tree/node.go:21-24 | leading zeros of the exclusive or, by eight, is the length of the longest common byte prefix |
| RadixSpec.InsertWF | radix-tree/node.go:139-166 | insertion keeps prefixes nested, at least two children below the root and depths increasing |
| RadixSpec.InsertContents | radix-tree/node.go:139-166 | insertion is update of the denoted map |
| RadixSpec.DeleteWF | radix-tree/node.go:168-198 | deletion with collapse keeps the tree compact |
| RadixSpec.DeleteContents | radix-tree/node.go:168-198 | deletion is removal from the denoted map |
| RadixSpec.LookupIsContents | radix-tree/node.go:99-120 | descent by prefix and index byte finds exactly what the denoted map holds |
| RadixSpec.PartingKeys | radix-tree/node.go:122-137 | a node with two children has as prefix the longest common prefix of its keys |
| RadixSpec.Canonical | radix-tree/node.go:122-198 | canonical form: two compact trees that denote the same map are equal, in prefixes and children |
| RadixWalk.WalkHolds | radix-tree/node.go:230-250 | the walk lists exactly the stored entries |
| RadixWalk.WalkIncreasing | radix-tree/node.go:230-250 | the walk is in strictly increasing key order |
| RadixWalk.SkipBelow | radix-tree/node.go:231-235 | starting at the child of the key's index byte skips no entry with a key at least as large |
| RadixWalk.SkipAbove | radix-tree/node.go:253-261 | starting at that child downwards skips no entry with a key at most as large |
| RadixWalk.VisitIs | radix-tree/node.go:243-247 | iteration shows a prefix of the entries, up to and including the first for which the callback answers false |
| RadixWalk.WalkShows | radix-tree/node.go:230-276 | the entries from a key on are the stored ones with keys >= it ascending, and <= it descending |
| RadixWalk.WalkExtremes | radix-tree/node.go:200-228 | the ends of the walk are the least and greatest keys; it is empty only for the empty map |
| RadixSlots.SlotsReplace | radix-tree/node.go:83-86 | writing the slot of a present byte replaces that child only |
| RadixSlots.SlotsInsert | radix-tree/node.go:87-96 | shifting the list at the rank of a new byte adds that child only |
| RadixSlots.SlotsRemove | radix-tree/node.go:67-81 | closing the gap at the rank of a byte removes that child only |
| RadixTree.Node.constructor | radix-tree/node.go:26-33 | a new node has the first bytes of the key as prefix and no children |
| RadixTree.Node.GetChild | radix-tree/node.go:59-65 | the child stored under an index byte, at the slot CountLess gives |
| RadixTree.Node.InsertChildInto | radix-tree/node.go:83-97 | the child map gets one new entry; no other node changes |
| RadixTree.Node.DeleteChildFrom | radix-tree/node.go:67-81 | the child map loses one entry; no other node changes |
| RadixTree.MakeNodeFromItems | radix-tree/node.go:122-137 | the new node has the longest common prefix of the two keys and the two as its children |
| RadixTree.Node.Fetch | radix-tree/node.go:99-120 | the loop returns what lookup in the tree value gives |
| RadixTree.Node.Insert | radix-tree/node.go:139-166 | the updated heap represents the tree value after insertion, and the old item is returned |
| RadixTree.Node.Delete | radix-tree/node.go:168-198 | the updated heap represents the tree value after deletion, and the deleted item is returned |
| RadixTree.Node.AscendGreaterOrEqual | radix-tree/node.go:230-250 | the recursion shows the callback the walk's entries with keys >= the given one |
| RadixTree.Node.DescendLessOrEqual | radix-tree/node.go:252-276 | the recursion shows the callback the walk's entries with keys <= it, from the top |
| RadixTree.Node.Min | radix-tree/node.go:215-228 | the first entry of the walk |
| RadixTree.Node.Max | radix-tree/node.go:200-213 | the last entry of the walk |
| RadixTree.RadixTree.constructor | radix-tree/tree.go:14-20 | the zero tree is valid and empty |
| RadixTree.RadixTree.Clear | radix-tree/tree.go:34-37 | the tree is empty again |
| RadixTree.RadixTree.Len | radix-tree/tree.go:71-73 | len is the size of the denoted map |
| RadixTree.RadixTree.GetI | radix-tree/tree.go:67-69 | exactly the stored item, nil exactly for keys not stored |
| RadixTree.RadixTree.ReplaceOrInsert | radix-tree/tree.go:83-89 | the map is updated at the item's key and nowhere else; the replaced item is returned |
| RadixTree.RadixTree.DeleteI | radix-tree/tree.go:55-61 | the map loses the key and nothing else; the deleted item is returned |
| RadixTree.RadixTree.AscendGreaterOrEqualI | radix-tree/tree.go:30-32 | the callback sees exactly the stored items with key >= the given one in increasing order, up to its first false |
| RadixTree.RadixTree.DescendLessOrEqualI | radix-tree/tree.go:47-49 | the same downwards for keys <= the given one |
| RadixTree.RadixTree.Min | radix-tree/tree.go:79-81 | an item of least key, nil only for the empty tree |
| RadixTree.RadixTree.Max | radix-tree/tree.go:75-77 | an item of greatest key, nil only for the empty tree |
| RadixTree.CanonicalStructure | radix-tree/node.go:122-198 | two trees in memory that denote the same map have the same prefix words, bitmaps and child lists throughout |
| RingBuffer.RingBuffer.WriteBlock | ringbuffer/ring_buffer.go:37-53 | appends a prefix, empty only if b is or the ring is full; buffered cells stay |
| RingBuffer.RingBuffer.Append | ringbuffer/ring_buffer.go:55-71 | appends all that fits, full exactly when something does not; the panic is unreachable; buffered cells stay, and with them the array range of a slice that Peek(0) has returned |
| RingBuffer.RingBuffer.Peek | ringbuffer/ring_buffer.go:73-83 | the contents from off up to their end or that of the array, whichever is nearer, and the array range it shares |
| RingBuffer.RingBuffer.Fetch | ringbuffer/ring_buffer.go:85-110 | copies the contents from off across the wrap-around and nothing else |
| RingBuffer.RingBuffer.Consume | ringbuffer/ring_buffer.go:112-123 | drops exactly the first bytes |
| BackgroundFlush.AppendOk | backgroundflush/writer.go:92-98 | appending keeps both buffers the stretches of the accepted bytes they stand for |
| BackgroundFlush.SealOk | backgroundflush/writer.go:53-56 | after sealing, all accepted bytes are in sealed buffers |
| BackgroundFlush.ReleaseOk | backgroundflush/writer.go:46-48 | releasing the oldest buffer keeps the other |
| BackgroundFlush.StepInv | backgroundflush/writer.go:32-107 | every step of every goroutine keeps the invariant |
| BackgroundFlush.Safety | backgroundflush/writer.go:32-107 | in every state of every run flushBuf <= writeBuf <= flushBuf + 2, so the panic is unreachable |
| BackgroundFlush.Conservation | backgroundflush/writer.go:32-107 | before an error the accepted bytes are the sink, then the buffers, oldest first; the sink is always a prefix |
| BackgroundFlush.Grown | backgroundflush/writer.go:32-107 | sink and accepted bytes only grow over a run, and the first error stays |
| BackgroundFlush.FlushIsDurable | backgroundflush/writer.go:68-76 | a Flush that returned nil: all bytes accepted before its call are in the sink |
| BackgroundFlush.ErrorHasCause | backgroundflush/writer.go:43-47 | only the last underlying Write can have failed; the error kept, and every error a Write or Flush returns, is what it returned |
| BackgroundFlush.NoneFails | backgroundflush/writer.go:68-107 | while every underlying Write returned nil every Flush returns nil and every Write all of its argument and nil |
| BackgroundFlush.FailureIsFinal | backgroundflush/writer.go:39-51 | after an underlying Write has failed there is no other and the sink stays; once its error is taken over nothing more is accepted |
| BackgroundFlush.ErrorIsReturned | backgroundflush/writer.go:71-106 | every call that returns after an error was taken over returns that error, and a Write that had not got the lock accepts nothing |
| BackgroundFlush.UnlockedWriteUndisturbed | backgroundflush/writer.go:40-46 | no step of any goroutine changes the buffer that is being written without the lock |
| BackgroundFlush.WriteIsExact | backgroundflush/writer.go:78-107 | exactly the first n bytes of a Write are accepted, in order and once each; all of them for a nil return |
| BackgroundFlush.WaitersAreWoken | backgroundflush/writer.go:32-66 | while a call waits there is exactly one flush goroutine, whose steps lead to a broadcast that leaves nobody waiting |
| BackgroundFlush.NoDeadlock | backgroundflush/writer.go:32-107 | while a call has not returned or a flush goroutine exists, one has a step |
| BackgroundFlush.TurnAdvances | backgroundflush/writer.go:92-103 | a turn of the Write loop takes a byte if and only if the capacity is not 0 |
| BackgroundFlush.WriteFills | backgroundflush/writer.go:92-103 | a turn goes on to the next buffer if and only if this one is full, and leaves a rest of the argument only then |
| BackgroundFlush.SmallSizeSpins | backgroundflush/writer.go:83-104 | for a size below 2 a Write with work to do keeps the lock and never returns |
| BackgroundFlush.SpinIsReached | backgroundflush/writer.go:78-83 | every Write of something gets to that loop |
| GroupCommit.StepInv | parallelwriter/writer.go:35-86 | every step of every caller keeps the invariant |
| GroupCommit.Safety | parallelwriter/writer.go:35-86 | every state of every run satisfies it |
| GroupCommit.WholeAndOnce | parallelwriter/writer.go:32-34 | each underlying Write gets whole arguments of different calls one after the other, and no call is in two of them |
| GroupCommit.SuccessIsWritten | parallelwriter/writer.go:43-55 | a nil return, of leader or follower: the argument is contiguous in an underlying Write that returned nil |
| GroupCommit.ErrorIff | parallelwriter/writer.go:78-81 | the error kept is e if and only if the last underlying Write returned e and its batch is done |
| GroupCommit.FailureHasCause | parallelwriter/writer.go:39-84 | an error return, of leader, follower or latecomer, reports 0 bytes and just the error of the one underlying Write that failed |
| GroupCommit.FailureIsOwnIff | parallelwriter/writer.go:43-54 | of a call that returned an error the bytes are in a Write that returned nil if and only if the failed Write was for a later batch |
| GroupCommit.LateErrorIsReached | parallelwriter/writer.go:47-54 | a follower that wakes up late can return an error although its bytes were written |
| GroupCommit.NoneFails | parallelwriter/writer.go:35-86 | while no underlying Write has failed every call returns all of its argument and nil |
| GroupCommit.OneWriteAtATime | parallelwriter/writer.go:24-25 | underlying Writes never overlap, and none follows one that failed |
| GroupCommit.ErrorIsSticky | parallelwriter/writer.go:39-41 | the first error stays, no underlying Write begins after it and no argument is taken into a batch |
| GroupCommit.StepsAdvance | parallelwriter/writer.go:35-86 | every step brings one call nearer to its return and moves no other |
| GroupCommit.NoDeadlock | parallelwriter/writer.go:43-68 | while a call has not returned, some call can go on |
| GroupCommit.CrashIff | parallelwriter/writer.go:43-44 | the pool panics exactly when an empty argument joins a batch of empty ones |
| GroupCommit.CrashIsReached | parallelwriter/writer.go:43-44 | two concurrent calls with empty arguments can get there |
| PipelinedFlush.Refines | parallelwriter/pipelined_flush_writer.go:60-64 | every step is a step of the batching writer, or none of its |
| PipelinedFlush.StepInv | parallelwriter/pipelined_flush_writer.go:11-88 | every step of every goroutine keeps the invariant |
| PipelinedFlush.Safety | parallelwriter/pipelined_flush_writer.go:11-88 | every state of every run satisfies it |
| PipelinedFlush.NilIsDurable | parallelwriter/pipelined_flush_writer.go:69-88 | a nil return: the bytes are contiguous in a Write that returned nil, and a Flush begun after that Write ended has returned nil |
| PipelinedFlush.FlushErrorIff | parallelwriter/pipelined_flush_writer.go:28-34 | flushErr is nil if and only if every underlying Flush recorded so far returned nil |
| PipelinedFlush.FlushErrorIs | parallelwriter/pipelined_flush_writer.go:30-34 | otherwise it is what the latest of them that failed returned |
| PipelinedFlush.FailureHasCause | parallelwriter/pipelined_flush_writer.go:69-88 | an error return reports 0 bytes and just what an underlying Flush or Write returned |
| PipelinedFlush.FlushErrorSticks | parallelwriter/pipelined_flush_writer.go:83-86 | once the error of a Flush is recorded every Write that returns later returns an error |
| PipelinedFlush.NoneFails | parallelwriter/pipelined_flush_writer.go:69-88 | while no underlying Write or Flush has failed every Write returns all of its argument and nil |
| PipelinedFlush.OneOfEach | parallelwriter/pipelined_flush_writer.go:40-48 | at most one Write and one Flush are in flight, and Flush e begins after Write e has ended |
| PipelinedFlush.WritesLeadFlushes | parallelwriter/pipelined_flush_writer.go:17-26 | successful Writes lead the flush goroutines started by at most one |
| PipelinedFlush.ChannelIsSet | parallelwriter/pipelined_flush_writer.go:75-80 | no call waits for a nil channel |
| PipelinedFlush.NoDeadlock | parallelwriter/pipelined_flush_writer.go:11-88 | while a call has not returned, some goroutine can go on |
| BufferedWriter.StepInv | parallelwriter/buffered_writer.go:70-229 | every step of every goroutine keeps the invariant |
| BufferedWriter.Safety | parallelwriter/buffered_writer.go:70-229 | every state of every run satisfies it |
| BufferedWriter.Conservation | parallelwriter/buffered_writer.go:70-200 | until an error or the end of the flusher: accepted bytes = sink, rest of the operation in progress, queued operations in order; ring length = their buffered bytes |
| BufferedWriter.Grown | parallelwriter/buffered_writer.go:70-200 | the sink is a prefix of the accepted bytes in all states, and both only grow; nothing is accepted or written after an error is set |
| BufferedWriter.ErrorHasCause | parallelwriter/buffered_writer.go:92-119 | only the last underlying Write or Flush can have failed; the error set is what it returned, and while none is set all others returned nil |
| BufferedWriter.FailureIsFinal | parallelwriter/buffered_writer.go:111-121 | after an underlying Write or Flush has failed there is no other call of it and the sink stays; once the error is set nothing more is accepted |
| BufferedWriter.FailureHasCause | parallelwriter/buffered_writer.go:147-229 | a call that returns an error returns that of the one underlying call that failed, or ErrClosed when Close has been called |
| BufferedWriter.NoneFails | parallelwriter/buffered_writer.go:147-229 | without a failed underlying call and without Close every call returns nil, and every Write all of its argument |
| BufferedWriter.FailedWrite | parallelwriter/buffered_writer.go:96-101 | a Write that returns n with an error was refused with n = 0, or exactly the first n bytes of its argument are in the sink, for ever |
| BufferedWriter.ErrorIsReturned | parallelwriter/buffered_writer.go:173-177 | a call that gets the lock when there is an error returns it, after Close ErrClosed, and nothing of it is accepted |
| BufferedWriter.CloseStops | parallelwriter/buffered_writer.go:141-155 | after Close nothing is accepted and the sink gets just the rest of the operation in progress |
| BufferedWriter.WritesAreBatched | parallelwriter/buffered_writer.go:183-222 | consecutive buffered Writes in the queue are one operation, and so are consecutive Flushes |
| BufferedWriter.BlocksIff | parallelwriter/buffered_writer.go:173-181 | a Write waits for the flusher if and only if it is not refused and the ring has no room for all of it |
| BufferedWriter.UnlockedWriteUndisturbed | parallelwriter/buffered_writer.go:75-84 | the bytes being written without the lock are the front of the contents of the ring, and stay so in every step |
| BufferedWriter.WriteIsAccepted | parallelwriter/buffered_writer.go:169-200 | each accepted byte is in the place of exactly one call, a place holds the whole argument in one piece, and a nil Write has one; so places are disjoint and nothing else is accepted |
| BufferedWriter.FlushIsDurable | parallelwriter/buffered_writer.go:202-229 | a nil Flush, coalesced or not: an underlying Flush that returned nil began with all bytes accepted before the call in the sink |
| BufferedWriter.TicketsTell | parallelwriter/buffered_writer.go:90-101 | no done channel is closed twice; one closed with nil tells the truth about its write or flush |
| BufferedWriter.DrainCloses | parallelwriter/buffered_writer.go:124-138 | the drain closes exactly the operations in the queue, once each, with the error |
| BufferedWriter.DrainIsFinal | parallelwriter/buffered_writer.go:107-139 | nothing enters the queue after the drain, and every done channel has been closed once |
| BufferedWriter.NoLostWakeup | parallelwriter/buffered_writer.go:111-114 | while a call waits for an open operation the flusher neither sleeps nor has ended |
| BufferedWriter.FlusherCanStep | parallelwriter/buffered_writer.go:74-89 | the flusher never finds the ring empty with bytes still to write |
| BufferedWriter.NoDeadlock | parallelwriter/buffered_writer.go:70-229 | while a call has not returned, some goroutine can go on |
| MovingCounter.Counter.constructor | movingcounter/counter.go:86-101 | a new counter has no active bucket and the zero value as total |
| MovingCounter.QuoIs | movingcounter/counter.go:96-96 | the bucket period is the longest of which the period holds numBuckets, in whole nanoseconds |
| MovingCounter.Counter.ExpireOld | movingcounter/counter.go:103-135 | the circular array holds what expiry of the sequence of active buckets gives; both its panics are unreachable |
| MovingCounter.Counter.AddWithTime | movingcounter/counter.go:137-187 | panics or updates exactly as AddAt of the sequence of active buckets says |
| MovingCounter.Counter.Total | movingcounter/counter.go:189-193 | the totals after expiry |
| MovingCounter.Counter.Min | movingcounter/counter.go:195-209 | the least over the active buckets after expiry |
| MovingCounter.Counter.Max | movingcounter/counter.go:211-225 | the greatest over the active buckets after expiry |
| MovingWindow.FloorAfter | movingcounter/counter.go:156-158 | at any time a new bucket starts at or after the end of any earlier one |
| MovingWindow.NeverPanics | movingcounter/counter.go:103-161 | with a positive period that the number of buckets divides, no sequence of calls at any times panics, a clock going back and times before 1970 included, and the totals are those of the active buckets |
| MovingWindow.PanicsIff | movingcounter/counter.go:149-157 | no sequence of calls panics if and only if the number of buckets divides the positive period, or the period is so negative that the bucket period is |
| MovingSamples.Refines | movingcounter/counter.go:103-187 | after any sequence of calls at any times the active buckets sum up a plain list that refuses samples older than the newest bucket and drops whole old buckets |
| MovingSamples.ReadIs | movingcounter/counter.go:189-225 | so at any clock Total, Min and Max are sum, number, least and greatest of exactly the young samples of that list |
| MovingSamples.LateIsIgnored | movingcounter/counter.go:141-143 | an Add at a time before the start of an earlier sample's bucket that has not expired changes nothing, now or at any later call, whatever the clock does |
| MovingSamples.AddPanicsIff | movingcounter/counter.go:149-152 | at any clock an Add panics if and only if it needs a new bucket and the young samples are of as many buckets as there are |
| MovingSamples.TotalIsWindow | movingcounter/counter.go:189-225 | with a clock that never goes back and Adds that find their own bucket, Total, Min and Max are sum, number, least and greatest of exactly the samples whose bucket starts after now - period |
| MovingSamples.WindowBounds | movingcounter/counter.go:156-158 | a sample counts for at least period - bucketPeriod, and not after period unless it is of a time before 1970 between two bucket starts |
| MovingSamples.WindowIff | movingcounter/counter.go:137-158 | with a clock that never goes back the window is right after every event and at all later times if and only if no Add comes before 1970 between two bucket starts while the newest bucket has not ended |
| MovingSamples.SinceEpoch | movingcounter/counter.go:189-225 | so it is right for all Adds from 1970 on, and before it at bucket starts |
| MovingSamples.SecondCounts | movingcounter/counter.go:156-158 | a second sample of an instant counts if and only if the instant is not before 1970 or is a bucket start |
| CompressedBuffer.Buffer.AppendBlock | compressedbuffer/buffer.go:40-77 | one compressed block more |
| CompressedBuffer.Buffer.FlushWriter | compressedbuffer/buffer.go:79-86 | the full staging buffer becomes a block |
| CompressedBuffer.Buffer.Write | compressedbuffer/buffer.go:88-120 | everything is appended to the data, staged or as whole blocks |
| CompressedBuffer.Buffer.Size | compressedbuffer/buffer.go:122-126 | the number of bytes written |
| CompressedBuffer.Buffer.CompressedSize | compressedbuffer/buffer.go:128-132 | the size of the compressed blocks and of the data staged |
| CompressedBuffer.Buffer.ReadBlock | compressedbuffer/buffer.go:134-161 | the block as written, from the cache or not, and it is what is cached then: the cache is never stale |
| CompressedBuffer.Buffer.ReadAt | compressedbuffer/buffer.go:163-193 | the overlapping stretch of all data written, and EOF exactly for a non-empty read past the end; panics exactly for a non-empty read from a negative offset |
| BufferPool.CeilLog2Is | bufferpool/buffer_pool.go:34-36 | ceilLog2 is the exponent of the least power of two that is large enough |
| BufferPool.IsPow2Is | bufferpool/buffer_pool.go:38-40 | the bit test holds exactly of the powers of two |
| BufferPool.CapacityIs | bufferpool/buffer_pool.go:42-50 | a size from 9 to 2^24 gets the least power of two that holds it as capacity, any other just what it asks for |
| BufferPool.KeepsIff | bufferpool/buffer_pool.go:82-87 | the capacities that Put keeps are exactly the powers of two from 2^4 to 2^24 |
| BufferPool.Pool.GetUninit | bufferpool/buffer_pool.go:42-53 | a slice of the class capacity, all zero or poisoned, and out of the pool unless it had been put there twice |
| BufferPool.Pool.Get | bufferpool/buffer_pool.go:55-68 | zero over the whole capacity; panics exactly for size 0 |
| BufferPool.Pool.Put | bufferpool/buffer_pool.go:81-93 | pools exactly the slices of a class size, poisoned; one that is in the pool already is in it twice then |
| BufferPool.Buffer.constructor | bufferpool/buffer.go:8-16 | starts as the donated bytes |
| BufferPool.Buffer.GrowIfNecessary | bufferpool/buffer.go:18-32 | the contents stay, there is room, a donated slice is left alone and out of the pool, an own one goes back into it |
| BufferPool.Buffer.Write | bufferpool/buffer.go:34-38 | appends; panics exactly after Reset or for nothing on nothing donated, with all left as it was |
| BufferPool.Buffer.Reset | bufferpool/buffer.go:48-53 | gives back an own slice, never a donated one |
| Failover.StepInv | failover/failover.go:77-171 | every step of every goroutine keeps the invariant |
| Failover.Safety | failover/failover.go:77-171 | every state of every run satisfies it |
| Failover.ResultsAreConserved | failover/failover.go:109-138 | when Do returns, f was called once for each argument taken and has returned; a result with ErrFailover or a context error is passed over, every other was returned by Do, or its value closed exactly once |
| Failover.OneIsDelivered | failover/failover.go:125-138 | at most one result is delivered |
| Failover.NoSendOnClosed | failover/failover.go:91-98 | no worker sends on a closed channel |
| Failover.AnswersMean | failover/failover.go:159-170 | ErrNoResult only if the input ended and every call of f returned ErrFailover or a context error; a context error only if it is the caller's; any other result is one that f returned |
| Failover.ResultIsKept | failover/failover.go:111-111 | over a run, what a call of f returned stays what it returned |
| Failover.DoneBeforehand | failover/failover.go:164-170 | if the caller's context is done before Do is about to return, Do does not return ErrNoResult |
| Failover.HeldBack | failover/failover.go:122-138 | a result is held back, and may be dropped, only if the caller was not at its receive at the first try, whatever the context |
| Failover.NudgeWakes | failover/failover.go:114-119 | after a call that fails over the dispatcher need not wait for its timer before it takes the next argument |
| Failover.NoDeadlock | failover/failover.go:77-171 | until Do has returned some goroutine can go on |
| RefContext.RefContext.constructor | refcontext/ref_context.go:17-26 | starts alive with the initial context |
| RefContext.RefContext.Cancel | refcontext/ref_context.go:18-25 | the context is cancelled; that it was by its user is remembered |
| RefContext.RefContext.WatchBegin | refcontext/ref_context.go:36-45 | the watcher first waits for the initial context |
| RefContext.RefContext.RandCleanup | refcontext/ref_context.go:72-90 | removes only contexts that are done, leaves the first in place, and stops only at one that is not done |
| RefContext.RefContext.WatchTurn | refcontext/ref_context.go:36-69 | each turn drops a context, never reaches the panic, and cancels exactly when none is left, which is when all contexts held are done |
| RefContext.RefContext.Ref | refcontext/ref_context.go:92-103 | succeeds exactly while the context lives, so never after the list is empty |
| RefContext.SwapDeleted | refcontext/ref_context.go:55-58 | swap-delete removes exactly one element and moves only the last |

## Left out

- The writers and `Do` are values, not objects: their results speak of all interleavings of steps
  of many goroutines, which a method on one object cannot show; their fields and updates are kept one by one.
- Liveness under a fair scheduler: proved instead are absence of deadlock and the steps that lead to a wake-up.
- `sync.Mutex`, `sync.Cond`, `sync.Pool`, channels, timers and `rand.Intn` are the nondeterminism
  of the models; `time.After` may fire at any time, so the intervals of `failover.Options` do not appear.
- `io.Writer` is modelled by its contract (fewer bytes than given only with an error), zlib by a pair of
  functions of which one undoes the other; its errors do not occur in memory.
- Capacity of slices, shrinking of child lists and other effects on garbage only.
- `Tree.Ascend`, `Descend`, `Get`, `Delete` and `Key` (radix-tree/tree.go), `Empty`, `Full`, `FindFirstSet`,
  `FindFirstClear` (bitmap): one-line calls of what is modelled.
- A callback of an iteration is a function of the items it has been shown; one that changes the tree is not modelled.
- CompressedBuffer.Buffer.ReadAt: sizes and offsets are unbounded where the source has int64.
- MovingSamples.TotalIsWindow: for a clock that never goes back; for any clock ReadIs says what is counted, since the source ignores samples of the past.
- MovingCounter.Counter.constructor: asks for at least one bucket, without which the source panics at once. Counts are unbounded where the source has uint64, and values are the int64 instance of the Value interface.
- BufferPool.Buffer.constructor: takes the clients at their word, that no slice has been put back twice or used after it; slices start at the beginning of their array.
- `GetBuffer`, `PutBuffer`, `DoSlice`, `bitmap/countless_array.go`, `io`, `badgerkv`, `grpc`, `listeners`, `cert`, `crypto`,
  `tempfile`: plumbing over libraries and the operating system, or easy additions.
- `syncmap`: removal by key does not check that the entry is still the same object, so mutual exclusion per key is not an invariant of the code.
