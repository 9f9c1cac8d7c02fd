# spiped in Dafny

A model of spiped, an encrypted pipe daemon on top of its own event library, and proofs about it.
Everything is checked by `dafny verify dfyconfig.toml`.

The modules follow the program.

- `Bytes`: byte strings, big-endian numbers, exclusive or. `Unfolding`: a device for proofs, see below.
- `PtrHeap`, `TimerQueue`, `ElasticArray`: the data structures. A heap whose elements hold their own
  positions, the timer queue on top of it, and the array that grows and shrinks.
- `EventsImmediate`, `EventsNetwork`, `EventsTimer`, `Events`, `EventQueues`: the three kinds of events, the loop,
  and that the queues answer as the loop takes for granted.
- `AesCtr`, `Sha256Words`, `Sha256Rounds`, `Sha256Sse2`, `Sha256Block`, `Sha256Spec`, `Sha256`, `Hmac`,
  `CryptoDh`: the cryptography, each fast or incremental form against its specification: section 6.5 of NIST
  SP 800-38A, sections 5.1.1 and 6.2 of FIPS 180-4, section 2 of RFC 2104, section 5.2 of RFC 8018, and the
  group of section 3 of RFC 3526. The AES block function is an arbitrary function.
- `Packets`, `ProtoCrypt`: what a packet is, and making and opening packets in place.
- `Pipes`, `PipeRuns`, `NetbufRead`, `ProtoPipe`: one direction of a connection. `Pipes` and `PipeRuns` are
  functions of the events that drive a pipe, and theorems about all runs; the classes in `NetbufRead` and
  `ProtoPipe` work on buffers the way the source does, and each of their methods is shown to make exactly the
  step that the theorems are about.
- `KeyExchange`, `Handshake`, `ProtoHandshake`: the cryptographic steps of the handshake, two parties and two
  channels as a step system, and the callbacks on the handshake cookie.
- `Connections`, `ProtoConn`: the life of a connection, as functions with a ledger of what it holds, and as
  callbacks on its fields.
- `Session`: handshake, connections and pipes put together.
- `DnsThread`, `Dispatch`: the resolver thread and the main thread under every interleaving, and the
  dispatcher.

Where the source takes something from outside, the model takes it as an argument or as a choice of the
environment: whether an allocation or a registration succeeds, what `recv`, `poll` and the clock return, when
signals arrive, what callbacks do, nonces, private values and blinding values. Machine integers are natural
numbers, and wrap-around is written out where it can happen.

Long definitions that most proofs only pass on are guarded by a topic from `Unfolding`; the verifier looks
inside only where the topic is mentioned, which keeps the proofs short and quick.

Some of the findings:

- `events_network_get` can return nothing although a descriptor that the last poll found ready is left:
  removing the last entry leaves the cursor past the end. The contract of `EventsNetwork.Network.Get` says
  exactly when it returns nothing, `EventsNetwork.GetStopsEarly` is an execution, and invariant 6 in the
  source's comment is stated as the code keeps it, with a wrapped cursor before the first entry.
- The event loop runs a timer event while a descriptor is ready only if an interrupt was requested during the
  poll before it; `Events.NeverOutOfTurn` has the condition and `Events.TimerAfterInterruptedPoll` the run.
- A delay with more than a million microseconds, or with negative ones, gives a deadline that the timer queue does
  not have in its place in time (`EventsTimer.OrderedExactly`); restarting such a timer still moves it to no earlier
  place (`EventsTimer.LaterDeadline`).
- The two parties of a handshake never wait for each other (`Handshake.NeverWaitForEachOther`), and at most 1280
  steps bring it to its end (`Handshake.HandshakeEnds`).
- A packet made of no data does not open (`Packets.OpenSealed`); the encrypting pipe never makes one.
- After `dnsthread_kill` with a request outstanding, the wakeup socket is still registered
  (`DnsThread.LeftListening`); the dispatcher runs no more events then.
- PBKDF2 treats an iteration count of 0 like 1, and with the largest count its loop never ends
  (`Hmac.EndsExactly`).
- Past 2^64 bytes of one stream the software path of AES-CTR repeats its key stream, the AES-NI path mostly does
  not, and the two part (`AesCtr.SoftwareExactly`, `AesCtr.AesniExactly`, `AesCtr.PathsPart`).
- The cost of growing an elastic array is amortised up to sizes of 2^63 + 1 bytes and no further, because doubling
  wraps (`ElasticArray.AmortisedCost`).

## Model

| member | source | states |
|---|---|---|
| `Bytes.BeDecEnc` | libcperciva/util/sysendian.h:38-81 | decoding a big-endian encoding gives the number back exactly when it fits the field |
| `Bytes.BeEncDec` | libcperciva/util/sysendian.h:38-81 | encoding what a byte string denotes gives the byte string back, for every byte string |
| `Bytes.Be32Enc` | libcperciva/util/sysendian.h:46-55 | the four bytes picked out by shifts and masks are the big-endian encoding |
| `PtrHeap.RootIsLeast` | libcperciva/datastruct/ptrheap.c:222-232 | in an ordered heap the root is below every element |
| `PtrHeap.LeastChildIsLeast` | libcperciva/datastruct/ptrheap.c:90-107 | the child chosen for sifting down is below its sibling, and is never the stale copy that a deletion leaves in the range |
| `PtrHeap.SiftUpStep` | libcperciva/datastruct/ptrheap.c:56-75 | one step up moves the only violation of heap order to the parent |
| `PtrHeap.SiftDownStep` | libcperciva/datastruct/ptrheap.c:90-113 | one step down moves the only violation to the chosen child |
| `PtrHeap.Heap.Swap` | libcperciva/datastruct/ptrheap.c:23-44 | two elements are exchanged and both are told their new positions |
| `PtrHeap.Heap.HeapifyUp` | libcperciva/datastruct/ptrheap.c:48-75 | from one violation above a position to a heap, permuting only the live elements, every stored position right |
| `PtrHeap.Heap.Heapify` | libcperciva/datastruct/ptrheap.c:80-114 | from one violation below a position to a heap over the live elements; a stale copy at the end of the range stays in place |
| `PtrHeap.Heap.BuildHeap` | libcperciva/datastruct/ptrheap.c:166-170 | bottom-up creation permutes the array into heap order, repeated pointers or not, with the loop that ends when its unsigned index wraps, also for no elements |
| `PtrHeap.Heap.AdviseAll` | libcperciva/datastruct/ptrheap.c:172-176 | every element is told an index of its own, the last one it has; without repetitions that is its position |
| `PtrHeap.Heap.Create` | libcperciva/datastruct/ptrheap.c:140-185 | a valid heap of exactly the given elements, repetitions included, for any total preorder; without repetitions every stored position is right |
| `PtrHeap.Heap.Add` | libcperciva/datastruct/ptrheap.c:192-216 | a valid heap with exactly one element more, also if it is there already, or nothing changes; a new element keeps the stored positions right |
| `PtrHeap.Heap.GetMin` | libcperciva/datastruct/ptrheap.c:222-232 | a least element; nothing exactly when the heap is empty |
| `PtrHeap.Heap.MoveLast` | libcperciva/datastruct/ptrheap.c:249-256 | the last element takes the place of the one to be deleted, and at most its own place is out of order |
| `PtrHeap.Heap.SiftMoved` | libcperciva/datastruct/ptrheap.c:258-271 | the moved element is sifted the way it has to go while its stale copy is still in the range; the live elements become a heap |
| `PtrHeap.Heap.Delete` | libcperciva/datastruct/ptrheap.c:238-277 | delete at any position: a valid heap of exactly the other elements, one occurrence less; without repetitions every stored position is right |
| `PtrHeap.Heap.Decrease` | libcperciva/datastruct/ptrheap.c:297-304 | the same elements in heap order after one has become smaller, whenever that leaves at most its own place out of order |
| `PtrHeap.Heap.Increase` | libcperciva/datastruct/ptrheap.c:311-318 | the same elements in heap order after one has become larger, whenever that leaves at most its own place out of order |
| `PtrHeap.IncreaseExactly` | libcperciva/datastruct/ptrheap.c:311-318 | every increase of an element leaves at most the place below position i out of order exactly if, of its occurrences, only that one has a different element below it, and none above then |
| `PtrHeap.DecreaseExactly` | libcperciva/datastruct/ptrheap.c:297-304 | the same for a decrease and the place above |
| `TimerQueue.TvcmpIsTimeOrder` | libcperciva/datastruct/timerqueue.c:21-39 | comparing normalised times compares their microseconds |
| `TimerQueue.Queue.Add` | libcperciva/datastruct/timerqueue.c:97-127 | exactly one record more, and the heap stays valid, or nothing changes |
| `TimerQueue.Queue.Delete` | libcperciva/datastruct/timerqueue.c:132-142 | exactly the record of the cookie is gone |
| `TimerQueue.Queue.Increase` | libcperciva/datastruct/timerqueue.c:149-162 | exactly one record has its later time |
| `TimerQueue.Queue.GetMin` | libcperciva/datastruct/timerqueue.c:168-180 | the least time; nothing exactly when the queue is empty |
| `TimerQueue.Queue.GetPtr` | libcperciva/datastruct/timerqueue.c:189-220 | nothing exactly when no record has expired; otherwise a record with the least time of all is taken out |
| `TimerQueue.DrainExpired` | libcperciva/datastruct/timerqueue.c:189-220 | repeating it at one time takes out exactly the expired records, each once, in non-decreasing order of time |
| `EventsTimer.GetTimeout` | libcperciva/events/events_timer.c:44-71 | the deadline is now plus the delay exactly, for every delay; with at most a million microseconds it is normalised, and is refused exactly when it would not fit a `time_t` |
| `EventsTimer.NormalisesExactly` | libcperciva/events/events_timer.c:57-63 | the deadline is normalised whatever the clock says exactly for delays of 0 to a million microseconds |
| `EventsTimer.OrderedExactly` | libcperciva/events/events_timer.c:57-63 | and exactly for those delays the comparison of the queue has every deadline in its place in time |
| `EventsTimer.LaterDeadline` | libcperciva/events/events_timer.c:175-194 | for every delay, normalised or not, a later clock reading gives no earlier deadline, which is what an increase in the queue relies on |
| `EventsTimer.InOrderOfTime` | libcperciva/events/events_timer.c:264-291 | with normalised deadlines the timer that goes first is the earliest, and none is due exactly if all are in the future |
| `EventsTimer.DelaysAreNormal` | libcperciva/events/events_timer.c:78-123 | timers registered with such delays have normalised deadlines |
| `EventsTimer.TimeLeft` | libcperciva/events/events_timer.c:221-232 | the time to a deadline, for every deadline, and zero if it has passed as the source compares |
| `EventsTimer.PollTimeout` | libcperciva/events/events_network.c:371-380 | the timeout fits an `int`; unless clamped it is at least the time left and less than one millisecond more |
| `EventsTimer.FullWaitExpires` | libcperciva/events/events_network.c:371-380 | after a full wait that was not clamped the earliest timer has expired |
| `EventsTimer.ZeroWaitIffDue` | libcperciva/events/events_network.c:371-380 | the wait is zero exactly when a timer is due |
| `EventsTimer.Timers.Register` | libcperciva/events/events_timer.c:78-123 | for every delay: exactly one deadline more, or refusal exactly if it does not fit a `time_t` or there is no memory, and no change |
| `EventsTimer.Timers.Cancel` | libcperciva/events/events_timer.c:157-169 | exactly the deadline of the timer is gone |
| `EventsTimer.Timers.Reset` | libcperciva/events/events_timer.c:175-194 | for every delay: exactly one deadline is moved to now plus its delay, and never to an earlier place in the queue; or refusal and no change |
| `EventsTimer.Timers.Min` | libcperciva/events/events_timer.c:202-245 | the time left to the deadline that goes first; nothing exactly when there is no timer |
| `EventsTimer.Timers.Get` | libcperciva/events/events_timer.c:264-291 | nothing exactly when no timer is due; otherwise a timer whose deadline goes first is removed |
| `EventsNetwork.ClearKeeps` | libcperciva/events/events_network.c:181-206 | clearing one of two bits keeps all six invariants and every other key as ready as it was |
| `EventsNetwork.ClearRemoves` | libcperciva/events/events_network.c:181-206 | swap-removal of an entry keeps all six invariants, the registered events, and every other key as ready as it was |
| `EventsNetwork.SetKeeps` | libcperciva/events/events_network.c:255-270 | registering on a descriptor in the poll array keeps the invariants and sets exactly one key |
| `EventsNetwork.AddKeeps` | libcperciva/events/events_network.c:134-177 | a new entry at the end keeps the invariants, sets exactly one key and disturbs no other |
| `EventsNetwork.SpreadKeeps` | libcperciva/events/events_network.c:431-442 | spreading an error or hangup over the wanted events keeps the invariants and what is ready |
| `EventsNetwork.Network.GrowSocketList` | libcperciva/events/events_network.c:106-130 | larger table, same events, same ready keys |
| `EventsNetwork.Network.ClearBit` | libcperciva/events/events_network.c:181-206 | exactly one bit of one descriptor is cleared, or its entry removed, with all invariants |
| `EventsNetwork.Network.Register` | libcperciva/events/events_network.c:216-285 | exactly one key is set and every other key stays as ready as it was; each error exactly when the source returns it, and then no event changes |
| `EventsNetwork.Network.Cancel` | libcperciva/events/events_network.c:292-352 | exactly one key is cleared; each error exactly when the source returns it, and then nothing changes |
| `EventsNetwork.Network.Select` | libcperciva/events/events_network.c:361-413 | the results of a complete poll replace the old ones and the cursor is at the last entry; an interrupted poll keeps the old results |
| `EventsNetwork.Network.Get` | libcperciva/events/events_network.c:421-471 | nothing exactly when the cursor is past the end or nothing is ready; otherwise one ready key is taken out of the table and no other |
| `EventsNetwork.GetStopsEarly` | libcperciva/events/events_network.c:421-471 | an execution in which it returns nothing although a descriptor that the last poll found ready is left |
| `EventsImmediate.LevelFirst` | libcperciva/events/events_immediate.c:141-146 | the first event of a level is the first of its priority in the whole queue |
| `EventsImmediate.LevelWithout` | libcperciva/events/events_immediate.c:111-112 | removing an event from the queue removes it from its level and from no other |
| `EventsImmediate.Immediate.Register` | libcperciva/events/events_immediate.c:64-98 | the event is last in order of arrival; the hint stays a lower bound |
| `EventsImmediate.Immediate.Cancel` | libcperciva/events/events_immediate.c:105-119 | exactly that event is gone |
| `EventsImmediate.Immediate.Get` | libcperciva/events/events_immediate.c:127-156 | nothing exactly when nothing is queued; otherwise the event with the least priority value that arrived first |
| `Events.StepKeeps` | libcperciva/events/events.c:91-184 | every step of the loop, with arbitrary callbacks and signals, keeps the order of what is run |
| `Events.NeverOutOfTurn` | libcperciva/events/events.c:91-184 | in every run: no network event with an immediate event queued, and a timer event only with none queued, directly after a zero-timeout poll at which the operating system had nothing ready unless an interrupt was requested |
| `Events.RunsWhatIsRunnable` | libcperciva/events/events.c:78-90 | a call that returns 0 without an interrupt has run an event or there was none to run |
| `Events.SpinResult` | libcperciva/events/events.c:202-225 | a callback's non-zero result ends the loop and is returned; 0 means done or interrupted |
| `Events.TimerAfterInterruptedPoll` | libcperciva/events/events.c:152-169 | a run in which a timer event follows a poll that a signal cut short although a descriptor was ready, so that the exception above is needed |
| `EventQueues.GetImmediate` | libcperciva/events/events_immediate.c:127-156 | what comes out is what the loop theorems take for granted: the event that goes first |
| `EventQueues.Select` | libcperciva/events/events_network.c:361-413 | a poll that completes takes over what is pending and leaves the cursor where nothing ready is passed over; an interrupted one leaves what was ready |
| `EventQueues.GetNetwork` | libcperciva/events/events_network.c:421-471 | what comes out is ready and is exactly what is taken out of the ready keys; directly after a poll nothing comes out only if nothing is ready |
| `EventQueues.GetTimer` | libcperciva/events/events_timer.c:264-291 | what comes out is due and goes before every other timer; nothing comes out only if none is due |
| `ElasticArray.NewAllocFits` | libcperciva/datastruct/elasticarray.c:27-45 | size <= alloc <= 4 * size + 3 for every size and allocation of type `size_t`, wrap-around included |
| `ElasticArray.OverflowCheck` | libcperciva/datastruct/elasticarray.c:125-129 | the test against `SIZE_MAX / reclen` is exactly the test for overflow of the product |
| `ElasticArray.ElasticArray.ResizeBuffer` | libcperciva/datastruct/elasticarray.c:21-76 | the common prefix is kept; it fails exactly when an allocation is needed and refused, and then nothing changes |
| `ElasticArray.ElasticArray.Resize` | libcperciva/datastruct/elasticarray.c:121-141 | the same in records |
| `ElasticArray.ElasticArray.Init` | libcperciva/datastruct/elasticarray.c:84-112 | an array of the requested size, or null exactly on overflow or if memory is refused for the structure or for the records |
| `ElasticArray.ElasticArray.GetSize` | libcperciva/datastruct/elasticarray.c:150-155 | the number of whole records |
| `ElasticArray.ElasticArray.Append` | libcperciva/datastruct/elasticarray.c:163-197 | the contents are the old contents and the data, or nothing changes; overflow exactly when the sum does not fit |
| `ElasticArray.ElasticArray.Shrink` | libcperciva/datastruct/elasticarray.c:209-229 | the contents lose exactly the last records, also if memory cannot be released |
| `ElasticArray.ElasticArray.Truncate` | libcperciva/datastruct/elasticarray.c:235-263 | the contents stay and no spare space does |
| `ElasticArray.LiveStep` | libcperciva/datastruct/elasticarray.c:27-45 | one resize to less than 2^63 + 2 bytes is paid for by the change of a potential |
| `ElasticArray.AmortisedCost` | libcperciva/datastruct/elasticarray.c:157-197 | for all sequences of sizes below a limit the bytes moved are at most 2 * appended + removed, and with spare space at most 2 * (appended + removed), exactly if the limit is at most 2^63 + 2 |
| `ElasticArray.LargeArraysCostMore` | libcperciva/datastruct/elasticarray.c:27-45 | four sizes, the largest 2^63 + 2, for which both bounds fail |
| `ElasticArray.DoublingWraps` | libcperciva/datastruct/elasticarray.c:27-45 | from 2^63 on every growth reallocates to exactly the new size, so that nothing is paid for in advance |
| `AesCtr.CallsAreOneCall` | libcperciva/crypto/crypto_aesctr.c:160-203 | however a message is cut into calls the output is counter mode of the whole message |
| `AesCtr.CtrXorInvolutive` | libcperciva/crypto/crypto_aesctr.c:221-247 | decryption is encryption |
| `AesCtr.CountsUp` | libcperciva/crypto/crypto_aesctr_shared.c:23-31 | the one-byte increment leaves the right 64-bit counter, also when bytes 8 to 14 were not initialised; on wrap it is the counter encoded anew |
| `AesCtr.BlockUsedUp` | libcperciva/crypto/crypto_aesctr_shared.c:23-31 | after the last byte of a block the counter block is ready for the next one |
| `AesCtr.Stream.Init2` | libcperciva/crypto/crypto_aesctr.c:104-125 | however bytes 8 to 14 of the counter block start out, a stream that is valid at position 0 |
| `AesCtr.Stream.CipherblockGenerate` | libcperciva/crypto/crypto_aesctr_shared.c:15-35 | from a counter block left by either path: nonce and block number in full, of the position or, on wrap of the last byte, of the 64-bit byte counter |
| `AesCtr.Stream.CipherblockUse` | libcperciva/crypto/crypto_aesctr_shared.c:37-56 | the bytes are exclusive-ored with the key stream of their positions, nothing else changes, and the 64-bit byte counter moves on |
| `AesCtr.Stream.PreWholeblock` | libcperciva/crypto/crypto_aesctr_shared.c:58-86 | the block under way is finished as far as there is data; unless the data ended, the position is a multiple of 16 |
| `AesCtr.Stream.PostWholeblock` | libcperciva/crypto/crypto_aesctr_shared.c:88-103 | the bytes that are left are done with one more block |
| `AesCtr.Stream.SoftwareStream` | libcperciva/crypto/crypto_aesctr.c:186-203 | the software path does every request, past 2^64 bytes too, for the positions of SoftAt |
| `AesCtr.AesniBlocks` | libcperciva/crypto/crypto_aesctr_aesni.c:79-99 | with the counter in a register: all whole blocks are done, and the last counter comes back |
| `AesCtr.Stream.AesniWholeblocks` | libcperciva/crypto/crypto_aesctr_aesni.c:55-108 | the same blocks as the software path, and a counter block that either path can go on from |
| `AesCtr.Stream.AesniStream` | libcperciva/crypto/crypto_aesctr_aesni.c:117-136 | the AES-NI path does every request, past 2^64 bytes too, for the positions of AesniAt |
| `AesCtr.Stream.CryptoStream` | libcperciva/crypto/crypto_aesctr.c:167-203 | every request on any stream that the paths have been mixed on: each byte is encrypted for the position its path comes to and nothing else changes; within 2^64 bytes that is counter mode from where the stream stands |
| `AesCtr.SoftRepeats` | libcperciva/crypto/crypto_aesctr_shared.c:24-31 | on the software path positions are taken modulo 2^64, so that the key stream repeats |
| `AesCtr.SoftwareExactly` | libcperciva/crypto/crypto_aesctr.c:186-203 | the software path is counter mode for every key exactly if the request stays within 2^64 bytes |
| `AesCtr.AesniExactly` | libcperciva/crypto/crypto_aesctr_aesni.c:68-107 | the AES-NI path is counter mode for every key exactly within 2^64 bytes or past them if neither whole blocks nor left-over bytes start where the byte counter is encoded anew |
| `AesCtr.BothExactly` | libcperciva/crypto/crypto_aesctr.c:167-203 | both paths are counter mode exactly if the request stays within 2^64 bytes |
| `AesCtr.PathsPart` | libcperciva/crypto/crypto_aesctr_aesni.c:68-107 | a request of two blocks on which one path is counter mode and the other is not |
| `AesCtr.CryptoBuf` | libcperciva/crypto/crypto_aesctr.c:229-247 | counter mode of section 6.5 of NIST SP 800-38A from position 0 |
| `Sha256Rounds.ChFastIsCh` | libcperciva/alg/sha256.c:200-200 | the rewritten Ch is Ch of FIPS 180-4 |
| `Sha256Rounds.MajFastIsMaj` | libcperciva/alg/sha256.c:201-201 | the rewritten Maj is Maj of FIPS 180-4 |
| `Sha256Rounds.RndRIsRound` | libcperciva/alg/sha256.c:209-221 | one round on rotating register indices is one round of section 6.2.2 of FIPS 180-4 |
| `Sha256Rounds.FullTurn` | libcperciva/alg/sha256.c:215-221 | after sixteen rounds the indices are back where they were |
| `Sha256Rounds.MixSixteen` | libcperciva/alg/sha256.c:281-296 | sixteen unrolled rounds in place take the registers from one point of the specified run to the one sixteen rounds later |
| `Sha256Rounds.ExtendSixteen` | libcperciva/alg/sha256.c:300-315 | the words written are the next sixteen of the schedule of section 6.2.2 of FIPS 180-4 |
| `Sha256Rounds.Mix` | libcperciva/alg/sha256.c:279-316 | 64 rounds with the schedule computed 16 words at a time |
| `Sha256Rounds.Transform` | libcperciva/alg/sha256.c:273-321 | the compression function of FIPS 180-4 on any state and words |
| `Sha256Rounds.CompressAgrees` | libcperciva/alg/sha256.c:199-225 | compression with the macros of the source is compression with the functions of the standard |
| `Sha256Block.TransformBlock` | libcperciva/alg/sha256.c:273-321 | compression of a block of bytes is that of FIPS 180-4 on any state and block |
| `Sha256Sse2.S1HighIs` | libcperciva/alg/sha256_sse2.c:80-95 | the shuffled 64-bit shifts compute sigma1 of the upper lanes |
| `Sha256Sse2.S1LowIs` | libcperciva/alg/sha256_sse2.c:100-115 | the same for the lower lanes |
| `Sha256Sse2.Msg4Extends` | libcperciva/alg/sha256_sse2.c:146-167 | four schedule words at once, the upper two of which depend on the lower two, are those of four scalar steps |
| `Sha256Sse2.MixSse2` | libcperciva/alg/sha256_sse2.c:205-231 | 64 rounds with four vectors that always hold the last sixteen words |
| `Sha256Block.BswapIsBigEndian` | libcperciva/alg/sha256_sse2.c:19-31 | swapping the bytes of a little-endian load gives the big-endian word |
| `Sha256Block.TransformBlockSse2` | libcperciva/alg/sha256_sse2.c:182-239 | the SSE2 compression function is that of FIPS 180-4 on any state and block |
| `Sha256.PadOne` | libcperciva/alg/sha256.c:340-342 | with room for the bit count the padding of section 5.1.1 of FIPS 180-4 completes one block |
| `Sha256.PadTwo` | libcperciva/alg/sha256.c:343-350 | without that room it completes two |
| `Sha256.Ctx.Init` | libcperciva/alg/sha256.c:363-377 | a context that stands for the empty message, whatever its buffer held |
| `Sha256.Ctx.Transform` | libcperciva/alg/sha256.c:232-321 | whichever of the two implementations is chosen for a block, the state goes on by the compression function of the standard |
| `Sha256.Ctx.Update` | libcperciva/alg/sha256.c:383-420 | a context that has been fed the old message and the data, however they were cut up |
| `Sha256.Ctx.Pad` | libcperciva/alg/sha256.c:331-360 | the state is that of hashing the message and its padding from scratch |
| `Sha256.Ctx.Final` | libcperciva/alg/sha256.c:441-451 | the SHA-256 digest of FIPS 180-4 of everything the context has been fed, for messages below 2^61 bytes |
| `Sha256.Be32EncVect` | libcperciva/alg/sha256.c:49-57 | the bytes of the words, big-endian |
| `Hmac.PadKey` | libcperciva/alg/sha256.c:511-522 | a constant block into which a short key is mixed is the padded key mixed with that block |
| `Hmac.HmacCtx.Init` | libcperciva/alg/sha256.c:493-523 | contexts for section 2 of RFC 2104, for every key length |
| `Hmac.HmacCtx.Copy` | libcperciva/alg/sha256.c:658-659 | a copy stands for the same key and text and shares nothing with the original |
| `Hmac.HmacCtx.Update` | libcperciva/alg/sha256.c:546-553 | the context stands for the longer text, however it was cut up |
| `Hmac.HmacCtx.Final` | libcperciva/alg/sha256.c:573-586 | HMAC of the text under the key |
| `Hmac.HmacBuf` | libcperciva/alg/sha256.c:611-627 | HMAC of section 2 of RFC 2104 |
| `Sha256Spec.ComputesSha256` | libcperciva/alg/sha256.c:441-451 | the hash that HMAC and PBKDF2 are stated for is SHA-256 |
| `Hmac.Iterates` | libcperciva/alg/sha256.c:675-684 | the U_j of section 5.2 of RFC 8018 and their exclusive or are what the inner loop goes through |
| `Hmac.DeriveBlock` | libcperciva/alg/sha256.c:664-685 | one block T_i from saved contexts |
| `Hmac.Pbkdf2` | libcperciva/alg/sha256.c:634-696 | PBKDF2 of section 5.2 of RFC 8018 for every salt, count and length for which the loops end, with their 64-bit counter; a count of 0 is treated as 1 |
| `Hmac.NeverLeavesBlock` | libcperciva/alg/sha256.c:675-675 | with the largest count the counter wraps and never passes it |
| `Hmac.EndsExactly` | libcperciva/alg/sha256.c:662-690 | the loops end exactly if the count is not 2^64 - 1 or nothing is to be derived |
| `CryptoDh.TwoExp256` | libcperciva/crypto/crypto_dh.c:17-28 | the constant is 2^256, and four times it 2^258 |
| `CryptoDh.ExponentsPositive` | libcperciva/crypto/crypto_dh.c:50-90 | both blinded exponents are positive whatever the blinding, and add up to 2^258 + priv |
| `CryptoDh.BlindedIsPow` | libcperciva/crypto/crypto_dh.c:114-128 | the product of the two exponentiations is a^(2^258 + priv) mod m whatever the blinding |
| `CryptoDh.ExportFits` | libcperciva/crypto/crypto_dh.c:129-139 | as few bytes as the number has, after zeros, are its big-endian encoding |
| `CryptoDh.SharedKey` | libcperciva/crypto/crypto_dh.c:254-281 | the key is 2 to the product of both exponents |
| `CryptoDh.Agreement` | libcperciva/crypto/crypto_dh.c:187-281 | both parties compute the same key, whatever they use for blinding |
| `CryptoDh.ComputeOne` | libcperciva/crypto/crypto_dh.c:254-281 | a peer value of 1 gives the encoding of 1 |
| `CryptoDh.MemcmpIsNumeric` | libcperciva/crypto/crypto_dh.c:288-297 | comparing bytes from the front compares big-endian numbers |
| `CryptoDh.SaneIffBelow` | libcperciva/crypto/crypto_dh.c:283-297 | the check accepts exactly the values below the modulus |
| `CryptoDh.GeneratedIsSane` | libcperciva/crypto/crypto_dh.c:187-245 | what is generated is accepted, and so is 1 |
| `KeyExchange.IsNotOne` | lib/proto/proto_crypt.c:180-196 | true exactly if the bytes do not denote 1 |
| `KeyExchange.MacKeysAgree` | lib/proto/proto_crypt.c:139-178 | each party's local MAC key is the other's remote one |
| `KeyExchange.MadeIsAccepted` | lib/proto/proto_crypt.c:205-265 | what one party makes the other accepts, exactly unless it requires a value other than 1 and gets 1 |
| `KeyExchange.SharedYAgrees` | lib/proto/proto_crypt.c:294-305 | both parties come to the same y_SC, for every choice of `nopfs` on the two sides |
| `KeyExchange.ComputeDhmac` | lib/proto/proto_crypt.c:146-178 | the MAC keys, by PBKDF2 of the secret and the nonces, client first |
| `KeyExchange.Validate` | lib/proto/proto_crypt.c:205-231 | refused exactly if the MAC is wrong, the value is not below the modulus, or it is 1 and must not be |
| `KeyExchange.Generate` | lib/proto/proto_crypt.c:239-265 | the packet that MadeIsAccepted and SharedYAgrees are about: the public value, or 1, and its MAC |
| `KeyExchange.ComputeKeys` | lib/proto/proto_crypt.c:276-332 | the key material of the client and of the server that SameKeys is about; a party that was told to do without forward secrecy itself takes 1 for the shared value and does not look at its peer's |
| `Packets.Open` | lib/proto/proto_crypt.c:389-417 | what a packet opens to has 1 to 1024 bytes |
| `Packets.OpenSealed` | lib/proto/proto_crypt.c:339-418 | a packet opens, under its number, to exactly the data it was made of; one without data does not open |
| `Packets.NumberWraps` | lib/proto/proto_crypt.c:366-371 | the number of the packet after n others is n modulo 2^64 |
| `ProtoCrypt.CounterModeInvolutive` | lib/proto/proto_crypt.c:400-401 | AES in counter mode is its own inverse |
| `ProtoCrypt.ProtoKeys.MkKeyPair` | lib/proto/proto_crypt.c:36-64 | null exactly if there is no memory or the AES key cannot be expanded; otherwise keys that realise the cipher of the packet theorems, at packet number 0 |
| `ProtoCrypt.ProtoKeys.Enc` | lib/proto/proto_crypt.c:339-372 | the packet is written to the output buffer and nothing else is touched; the packet number goes on and wraps |
| `ProtoCrypt.ProtoKeys.Dec` | lib/proto/proto_crypt.c:380-418 | -1 exactly if the packet does not open; otherwise the data are written out; the packet number goes on exactly if the MAC is right |
| `Pipes.PrepareMakesRoom` | libcperciva/netbuf/netbuf_read.c:169-178 | growth and compaction lose no byte and make room for what is to be read |
| `NetbufRead.ReadCookie.CallbackBuf` | libcperciva/network/network_read.c:43-110 | bytes accumulate, are reported once there are enough, and at the end of the input however few; none is written elsewhere |
| `NetbufRead.Reader.Peek` | libcperciva/netbuf/netbuf_read.c:98-105 | the range returned holds exactly the buffered bytes |
| `NetbufRead.Reader.ResizeBuffer` | libcperciva/netbuf/netbuf_read.c:108-139 | the buffered bytes are at the front of a larger buffer |
| `NetbufRead.Reader.Wait` | libcperciva/netbuf/netbuf_read.c:147-200 | an immediate callback if there is enough; otherwise a read with 0 < minread <= free space, and the same buffered bytes; for every length that meets the assertion in `network_read` |
| `NetbufRead.Reader.CallbackRead` | libcperciva/netbuf/netbuf_read.c:219-251 | the bytes read follow those buffered; end of input and failure are passed on |
| `NetbufRead.Reader.Readable` | libcperciva/netbuf/netbuf_read.c:219-251 | bytes read so far and newly received reach the buffer exactly when the read reports them, and the status passed on is that of the step on values |
| `NetbufRead.Reader.Consume` | libcperciva/netbuf/netbuf_read.c:282-291 | the first bytes are gone, the others and the pending operation stay |
| `Pipes.EncLoop` | lib/proto/proto_pipe.c:120-151 | the chunks are the beginning of the data, 1 to 1024 bytes each, and there are at most eight |
| `Pipes.DecLoop` | lib/proto/proto_pipe.c:120-151 | the chunks are what the first packets open to, and the loop fails only at a bad packet |
| `Pipes.DecLoopFits` | lib/proto/proto_pipe.c:120-151 | the decrypted bytes fit the output buffer |
| `ProtoPipe.RoomForPacket` | lib/proto/proto_pipe.c:122-124 | the room test with 1024 is enough for the 1060 bytes that are written |
| `ProtoPipe.PacketLoop` | lib/proto/proto_pipe.c:117-151 | the loop on the buffers, in place, is the loop on values |
| `ProtoPipe.PipeCookie.Create` | lib/proto/proto_pipe.c:46-88 | null exactly on failure; otherwise the pipe that every run of the theorems starts with |
| `ProtoPipe.PipeCookie.OnData` | lib/proto/proto_pipe.c:117-174 | refines processing on values: nothing is done twice or skipped, and afterwards a write or a read for more is pending, or the pipe is closed |
| `ProtoPipe.PipeCookie.CallbackPipeRead` | lib/proto/proto_pipe.c:91-222 | refines the step for data, end of input and error |
| `ProtoPipe.PipeCookie.CallbackPipeWrite` | lib/proto/proto_pipe.c:224-259 | refines the step for a written buffer: the next read, or the pipe is broken after a short write |
| `ProtoPipe.PipeCookie.OnReadable` | libcperciva/network/network_read.c:43-110 | from the socket through both read layers to the packet loop, one step of the runs that the theorems are about |
| `PipeRuns.StepKeeps` | lib/proto/proto_pipe.c:91-259 | every event keeps: what was sent is what the chunks give, the chunks are what was fed, no byte lost or twice, exactly one operation pending |
| `PipeRuns.EndToEnd` | lib/proto/proto_pipe.c:91-174 | for all runs of both ends with equal keys: what the far end puts out is a prefix of what the near end was fed, under every segmentation; the chunks, and so the packet numbers, are the same |
| `PipeRuns.NothingIsLost` | lib/proto/proto_pipe.c:91-174 | once all has arrived and the far end has closed without trouble, its status is 0 and it has put out everything |
| `PipeRuns.NothingIsWaiting` | lib/proto/proto_pipe.c:91-174 | while both ends run and wait for input, once all has arrived the far end has put out everything that the near end was fed |
| `PipeRuns.OnlyTheSendersBytes` | lib/proto/proto_pipe.c:102-164 | for every stream that arrives, tampered with in any way, in which packets verify only if the sender made them under that number: the output is a prefix of the sender's plaintext, as long as neither side has come to a number twice |
| `PipeRuns.OnlyWhatTheSenderWasFed` | lib/proto/proto_pipe.c:102-164 | the same for a sender that is itself an encrypting pipe in any run: the output is a prefix of what that pipe was fed |
| `PipeRuns.SentIsOnlySent` | lib/proto/proto_pipe.c:121-151 | what the sender made, and every beginning of it, is such a stream |
| `PipeRuns.SenderRepeats` | lib/proto/proto_crypt.c:366-371 | the limit on the sender is needed: packet 2^64 opens in place of packet 0 |
| `PipeRuns.ReceiverRepeats` | lib/proto/proto_crypt.c:391-404 | the limit on the receiver is needed: after 2^64 packets the first one opens again |
| `PipeRuns.FinalStatus` | lib/proto/proto_pipe.c:102-115 | without socket errors the final status is 0 exactly if the whole stream is a whole number of packets that open |
| `PipeRuns.EncryptingStatus` | lib/proto/proto_pipe.c:102-115 | an encrypting pipe ends with -1 exactly after trouble, and otherwise everything is in packets |
| `PipeRuns.NeverStuck` | lib/proto/proto_pipe.c:156-171 | a pipe that has not closed waits for exactly one thing, and its reads are for at least one byte and at most the free space |
| `Handshake.StepKeeps` | lib/proto/proto_handshake.c:125-320 | every callback in every order keeps what a party knows and has sent |
| `Handshake.SameKeys` | lib/proto/proto_handshake.c:125-320 | in every run over a faithful channel, for every nopfs and requirepfs: if both complete, the keys are the same and nothing is pending |
| `Handshake.NeverWaitForEachOther` | lib/proto/proto_handshake.c:125-320 | in every run, unless a party has failed, both have completed or one of them can send or receive: no deadlock |
| `Handshake.HandshakeEnds` | lib/proto/proto_handshake.c:125-320 | in every run at most 1280 steps send or receive, so that the handshake cannot go on for ever |
| `Handshake.FailsExactly` | lib/proto/proto_handshake.c:209-236 | without trouble a handshake that is over has failed exactly if forward secrecy is required and the peer's value is 1 |
| `Handshake.NeverWithoutSecrecy` | lib/proto/proto_crypt.c:223-227 | in every run, a party that requires forward secrecy never completes with a peer whose value is 1 |
| `ProtoHandshake.HandshakeCookie.constructor` | lib/proto/proto_handshake.c:86-110 | a party at the start of every run that SameKeys is about |
| `ProtoHandshake.HandshakeCookie.Start` | lib/proto/proto_handshake.c:78-122 | null exactly if memory, entropy, the write or the read is refused, and then no write is left pending; otherwise such a party with both nonces on their way |
| `ProtoHandshake.HandshakeCookie.HandshakeFail` | lib/proto/proto_handshake.c:43-63 | whatever was pending is cancelled, and the outcome is failure |
| `ProtoHandshake.HandshakeCookie.CallbackNonceWrite` | lib/proto/proto_handshake.c:124-143 | refines that step: broken after a short write, and on to the values only if the nonce has been read too |
| `ProtoHandshake.HandshakeCookie.CallbackNonceRead` | lib/proto/proto_handshake.c:145-164 | refines that step: broken after a short read, and on to the values only if the nonce has been written too |
| `ProtoHandshake.HandshakeCookie.OnNonces` | lib/proto/proto_handshake.c:166-186 | refines that step with MAC keys computed by PBKDF2: client and server go on in their own order |
| `ProtoHandshake.HandshakeCookie.StartDhRead` | lib/proto/proto_handshake.c:188-206 | refines that step: the read is pending or the handshake is broken |
| `ProtoHandshake.HandshakeCookie.StartDhWrite` | lib/proto/proto_handshake.c:238-261 | refines that step with the value made and signed by the algorithms above |
| `ProtoHandshake.HandshakeCookie.CallbackDhRead` | lib/proto/proto_handshake.c:208-236 | refines that step: broken after a short read, failed exactly if the value is not accepted |
| `ProtoHandshake.HandshakeCookie.CallbackDhWrite` | lib/proto/proto_handshake.c:263-286 | refines that step: broken after a short write, and the client reads, the server finishes |
| `ProtoHandshake.HandshakeCookie.HandshakeDone` | lib/proto/proto_handshake.c:288-320 | refines that step with the key material computed by the algorithms above |
| `Connections.CreateKeeps` | lib/proto/proto_conn.c:212-271 | a connection, or everything acquired is released again except the socket and the addresses |
| `Connections.StepKeeps` | lib/proto/proto_conn.c:144-407 | every event keeps the invariants of a connection |
| `Connections.PipesOnceAndReady` | lib/proto/proto_conn.c:300-304 | in every run the pipes are launched at most once, after both connect and handshake, in either order |
| `Connections.NeverStranded` | lib/proto/proto_conn.c:242-257 | a pending connect or handshake has its timer pending, and a live connection has something pending |
| `Connections.ReleasedExactlyOnce` | lib/proto/proto_conn.c:144-193 | sockets, addresses, keys, timers and cookies are each released exactly once, and `callback_dead` is called exactly once |
| `ProtoConn.ConnState.Create` | lib/proto/proto_conn.c:212-271 | null exactly on failure; what has been acquired by then is what creation leaves behind, step by step |
| `ProtoConn.ConnState.StartConnect` | lib/proto/proto_conn.c:242-268 | refines creation: on failure connect and timer are cancelled and the structure is freed, each once |
| `ProtoConn.ConnState.StartHandshake` | lib/proto/proto_conn.c:53-76 | refines that step: timer and handshake are both pending, or neither is |
| `ProtoConn.ConnState.LaunchPipes` | lib/proto/proto_conn.c:123-136 | refines that step; a pipe that exists has the key and the direction that OppositeEnds relies on |
| `ProtoConn.ConnState.Drop` | lib/proto/proto_conn.c:144-193 | refines that step: everything that is held is released, once |
| `ProtoConn.ConnState.CallbackConnectDone` | lib/proto/proto_conn.c:274-314 | refines the step for a completed connect; -1 is returned exactly if setting up failed |
| `ProtoConn.ConnState.CallbackConnectTimeout` | lib/proto/proto_conn.c:317-334 | refines the step for its timer, and the result of `callback_dead` is passed on |
| `ProtoConn.ConnState.CallbackHandshakeDone` | lib/proto/proto_conn.c:337-376 | refines the step for a completed handshake; the keys are recorded; -1 is returned exactly if setting up failed |
| `ProtoConn.ConnState.CallbackHandshakeTimeout` | lib/proto/proto_conn.c:379-389 | refines the step for its timer, and the result of `callback_dead` is passed on |
| `ProtoConn.ConnState.CallbackPipeStatus` | lib/proto/proto_conn.c:392-407 | refines the step: dropped exactly on an error in either direction or when both are closed |
| `Session.OppositeEnds` | lib/proto/proto_conn.c:123-129 | two connections whose handshakes completed use each key for opposite ends of the same direction |
| `Session.ClientToServer` | lib/proto/proto_conn.c:123-129 | handshake, connections and pipes together: the server puts out a prefix of what the client was fed, and all of it once everything has arrived and both pipes have closed or both wait |
| `Session.ServerToClient` | lib/proto/proto_conn.c:123-129 | and the client what the server was fed |
| `DnsThread.StepKeeps` | lib/dnsthread/dnsthread.c:60-156 | every step of either thread keeps the mutual exclusion and the phase of the request |
| `DnsThread.AnsweredAtMostOnce` | lib/dnsthread/dnsthread.c:305-354 | in every interleaving each accepted request is answered at most once, with its own result |
| `DnsThread.NeverBusy` | lib/dnsthread/dnsthread.c:254-258 | the worker is asleep when the callback holds the mutex, and the next request is never refused |
| `DnsThread.NotTouchedAfterFree` | lib/dnsthread/dnsthread.c:127-152 | in every interleaving no step of either thread touches the structure once it is freed, the mutex once it is destroyed or the sockets once they are closed |
| `DnsThread.NeverBothInside` | lib/dnsthread/dnsthread.c:89-127 | the threads are never both inside the mutex, and the address is not freed while the worker uses it |
| `DnsThread.LeftListening` | lib/dnsthread/dnsthread.c:362-410 | after a kill the wakeup socket is still listened to exactly if a request was outstanding |
| `Dispatch.RunKeeps` | spiped/dispatch.c:91-201 | at every event boundary: the count is the length of the list and at most the maximum; an accept is pending exactly while there is room and no shutdown; `conndone` exactly when shut down with none left |
| `Dispatch.AcceptState.DoAccept` | spiped/dispatch.c:91-112 | refines that step: an accept is pending afterwards exactly if there is room; -1 exactly if it could not be registered |
| `Dispatch.AcceptState.CallbackConnDied` | spiped/dispatch.c:115-141 | refines that step: exactly that connection leaves the list, also if the next accept fails |
| `Dispatch.AcceptState.CallbackGotConn` | spiped/dispatch.c:144-201 | refines that step: the connection is first in the list; a failure before that leaves the list and the count as they were |
| `Dispatch.AcceptState.RequestShutdown` | spiped/dispatch.c:326-344 | refines that step: no accept is pending any more, and `conndone` is set exactly if no connection is left |
| `Dispatch.AcceptState.Shutdown` | spiped/dispatch.c:288-311 | dropping connections from inside a loop over the list ends with an empty list, a count of 0 and no accept pending |

## Left out

- Sha256.Ctx.Final: requires messages below 2^61 bytes, the limit of the bit counter of FIPS 180-4.
- Hmac.Pbkdf2: says nothing about calls whose loops do not end; `EndsExactly` says which those are.
- NetbufRead.Reader.Wait: requires that the room behind the data is counted by a `ssize_t` if it comes to a read, since `network_read` aborts otherwise.
- PtrHeap.Heap.Increase: if a repeated pointer changes in several places at the same time the heap is in general not restored, so it requires the exact condition of `IncreaseExactly`.
- PtrHeap.Heap.Decrease: for the same reason it requires the exact condition of `DecreaseExactly`.
- EventsTimer.PollTimeout: requires a normalised time, as delays of 0 to a million microseconds give; what a conversion to `int` makes of others is not modelled.
- EventsTimer.GetTimeout: sums of microseconds are unbounded; the source leaves their overflow undefined.
- PipeRuns.OnlyTheSendersBytes: that packets verify only if the sender made them is a hypothesis on the stream that arrives, not a theorem about HMAC.
- Events.NeverOutOfTurn: the loop is a step system and not a method, because it need not end and its callbacks are arbitrary.
- DnsThread.StepKeeps: the threads are a step system at the granularity of mutex, condition variable and socket operations; failing pthread calls, which end the program, are not modelled.
- Connections.StepKeeps: socket options and the text of warnings are not modelled.
- Handshake.SameKeys: the partial results of reads and writes are in the step system; the class in `ProtoHandshake` is told the bytes that a read has collected.
- EventsImmediate.Immediate.Remove: the tail queues are sequences; the links of their nodes are not modelled.
- Dispatch.AcceptState.CallbackConnDied: the list of connections is a sequence; the links of its nodes are not modelled.
- The AES block function, key expansion, OpenSSL's big numbers and the detection of CPU features: foreign code or hardware.
- Sha256.Ctx.Transform: chooses between the portable and the SSE2 implementation; `SHA256_Transform_shani` and `SHA256_Transform_arm` are not among its choices.
- `sha256_arm.c`, `sha256_shani.c`, `crypto_aes_aesni.c`, `crypto_aes_arm.c`, `crypto_aesctr_arm.c`: one hardware instruction each, or the shape of the AES-NI file again.
- `network_write.c`, `network_connect.c`, `network_accept.c`, SSL: each is a small callback chain around one system call; here only its outcome appears, as a choice of the environment.
- Sockets, files, daemonizing, users and signals, and the command line: operating system and user interface.
- Wiping of memory and constant-time comparison: not functional behaviour.
- Statistics of the event loop, memory pools, entropy, and `dnsthread_resolve`: smaller and easier.
