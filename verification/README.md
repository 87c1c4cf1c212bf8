# Minos data access: verified models

Models in Dafny of the algorithms in the C++ data-access client, with proofs of what they
keep. `dafny verify dfyconfig.toml` checks the whole project.

- **The bounded lock-free queue `LFQ`** (`LockFreeQueue*.dfy`, `BoundedQueue.dfy`,
  `RingIndex.dfy`): every load, compare-and-swap, spin test, value write and flag write of
  any number of threads is a step of a transition system. Ticket bounds and the meaning of
  every refusal and failed compare-and-swap hold for any number of producers and consumers.
  Linearizability to an atomic bounded queue, mutual exclusion on slots and the absence of
  waiting and deadlock hold while no push laps a draining pop, as with a single consumer or
  on the first lap; order and the absence of loss and duplication hold for any number of
  producers and one consumer. What the two spins guarantee, and exactly when no published
  value is overwritten, is proved for all runs. With two consumers a run that returns a value twice is given
  for every capacity from 2 on, and a member says exactly for which consumers, capacities
  and numbers of pushes all runs are linearizable.
- **The skip list** (`SkipList*.dfy`): a heap-allocated list with towers relinked in place,
  which agrees with an ordered map for every run of operations and all coins. Entries above
  a node's height are never set, and the model reads no entry without a proof that it is.
- **The Protocol Buffers codec of the broker messages** (`Wire.dfy`, `UnknownFields.dfy`,
  `Proto*.dfy`, `CodedStream.dfy`, `*Codec.dfy`): the wire primitives follow the Protocol
  Buffers documentation, "Encoding" guide. Parsing, serializing, sizes and merging are
  defined once for every message type as functions of a schema, with the round-trip and
  merge laws; the generated classes of four messages, with their labels and jumps, cached
  sizes and nested objects, are proved to compute those functions.
- **The thread pool** (`ThreadPool*.dfy`): critical sections as steps, the clock as input;
  counters, order, timers, wakeups and both kinds of stop, along every run.
- **The digit trie** (`Decimal.dfy`, `DecimalTrie.dfy`): a counting index over decimals,
  proved against a multiset of keys.
- **The top-K heap** (`TopKHeap.dfy`): children `2i` and `2i + 1` counted from 0.

Where the code does not do what its names or documentation promise, the model follows the
code and a member says exactly when the promise holds: `Trie::Search` answers true for
prefixes of keys (`DecimalTrie.FoundExactly`), `Trie::Dfs` throws for keys from 2^31 on
(`DecimalTrie.Trie.Dfs`), heaps of odd size leave their last element outside the order
(`TopKHeap.InitDominatesExactlyWhen`, `TopKHeap.Heap.TopK`), `Stop(true)` counts timer
firings as tasks (`ThreadPoolGraceful.GracefulExactlyWithoutTimers`,
`ThreadPoolGrace.GracefulStopExactly`), a periodic timer armed again notifies nobody
(`ThreadPoolAlert.EnoughExactlyWhen`), a truncated nested message is accepted
(`ProtoLaws.OverlongLengthIsAccepted`) and swallows what is appended to it
(`ProtoConcatenation.ConcatenationMergesExactlyWhen`), and two consumers of `LFQ` can mix up
laps (`LockFreeQueueExactly.FifoExactlyForOneConsumer`, `LockFreeQueueExactly.LinearizableExactlyWhen`).

## Model

| member | source | states |
|---|---|---|
| `LockFreeQueue.StepKeepsInv` | data-access/common/lockfreequeue_funcs.h:15-71 | every step of every thread keeps `head <= tail <= head + capacity - 1`, one winner per ticket, and what each thread's local copies of `head` and `tail` can be relied on for; any number of producers and consumers |
| `LockFreeQueue.RunKeepsInv` | data-access/common/lockfreequeue_funcs.h:5-71 | the same at every point of every interleaving from the constructor on |
| `LockFreeQueue.StepGrows` | data-access/common/lockfreequeue_funcs.h:18-37 | a step never moves a ticket counter back, never rewrites a ticket's winner and never touches another thread |
| `LockFreeQueueRing.StepKeepsRingInv` | data-access/common/lockfreequeue_funcs.h:30-38 | while no push ticket is won a full lap past a pop ticket not released, with any number of pops draining: each flag tells whether the slot's ticket of the last lap is published and not released, a slot whose flag is set holds the value pushed under that ticket, and every released ticket was published and taken once, with its own value |
| `LockFreeQueueRing.RunKeepsRingInv` | data-access/common/lockfreequeue_funcs.h:15-71 | the same at every point of every such run |
| `LockFreeQueueRing.WindowSlotsDiffer` | data-access/common/lockfreequeue_funcs.h:22-30 | the last `capacity` tickets won have different slots |
| `LockFreeQueueRing.OneThreadPerSlot` | data-access/common/lockfreequeue_funcs.h:33-38 | mutual exclusion under that hypothesis: two threads past their spins, filling or draining, never work on the same slot |
| `LockFreeQueueRing.UnlappedExactlyWhen` | data-access/common/lockfreequeue_funcs.h:22-30 | the hypothesis holds along a run if and only if at no point of it two different tickets of one slot are owned by threads still filling or draining |
| `LockFreeQueueRing.SerialIsUnlapped` | data-access/common/lockfreequeue_funcs.h:57-70 | it holds if one pop drains at a time: the spare slot of the full test is what keeps the pushes within the lap |
| `LockFreeQueueRing.FirstLapIsUnlapped` | data-access/common/lockfreequeue_funcs.h:22-30 | it holds, with any number of pops draining, while no more than `capacity` pushes have been accepted |
| `RingIndex.SlotsDiffer` | data-access/common/lockfreequeue_funcs.h:30-30 | tickets less than a lap apart never share a slot |
| `RingIndex.RemainderIsModulo` | data-access/common/lockfreequeue_funcs.h:59-59 | the slot number is the ticket modulo the capacity |
| `LockFreeQueueRefinement.StepRefines` | data-access/common/lockfreequeue_funcs.h:15-71 | under the ring invariant every step either changes nothing visible or is the one step of a first-in first-out queue of `capacity - 1` places for the same call |
| `LockFreeQueueRefinement.RunRefines` | data-access/common/lockfreequeue_funcs.h:15-71 | linearizability: for every run in which no push laps a draining pop there is a run of that atomic queue, from empty, with the same calls and the same returned results |
| `LockFreeQueueProgress.PushRefusedExactlyWhenFull` | data-access/common/lockfreequeue_funcs.h:18-25 | `try_push` answers false exactly if the ring holds `capacity - 1` tickets at its load of `head` and `tail` has not moved |
| `LockFreeQueueProgress.PopRefusedExactlyWhenEmpty` | data-access/common/lockfreequeue_funcs.h:46-52 | `try_pop` answers false exactly if the ring is empty at its load of `tail` and `head` has not moved |
| `LockFreeQueueProgress.PushCasFailureIsProgress` | data-access/common/lockfreequeue_funcs.h:18-28 | a failed compare-and-swap on `tail` has a witness: another thread's success since this thread's own last load of `tail` |
| `LockFreeQueueProgress.PopCasFailureIsProgress` | data-access/common/lockfreequeue_funcs.h:46-57 | the same for `head` |
| `LockFreeQueueProgress.LastTailLoad` | data-access/common/lockfreequeue_funcs.h:18-28 | the copy of `tail` a thread compares with is the value at its own last load, since when it has won nothing |
| `LockFreeQueueProgress.LastHeadLoad` | data-access/common/lockfreequeue_funcs.h:46-57 | the same for `head` |
| `LockFreeQueueProgress.ProducerFindsSlotFree` | data-access/common/lockfreequeue_funcs.h:33-33 | under the ring invariant a producer at its spin finds the slot free |
| `LockFreeQueueProgress.ProducerPublishesAlone` | data-access/common/lockfreequeue_funcs.h:33-38 | under the ring invariant, and with no draining pop lapped, a producer with a ticket that runs alone publishes its slot after one, two or three steps, as `StepsToPublish` says |
| `LockFreeQueueProgress.ProducerCountsDown` | data-access/common/lockfreequeue_funcs.h:33-38 | along runs in which no push laps a draining pop: each step of its own brings a producer with a ticket one step closer to publishing, and no step of another thread takes it back |
| `LockFreeQueueProgress.ProducerPublishesInThree` | data-access/common/lockfreequeue_funcs.h:33-38 | along such runs, under any interleaving, a producer with a ticket has published its slot, with its own item, at the latest in its third own step |
| `LockFreeQueueProgress.ConsumerWaitsForProducerOnly` | data-access/common/lockfreequeue_funcs.h:62-62 | no deadlock, under the ring invariant and with no draining pop lapped: a consumer spinning on ticket h waits for a producer that holds h and is at most three unobstructed steps from publishing it |
| `LockFreeQueueFifo.SingleConsumerIsSerial` | data-access/common/lockfreequeue_funcs.h:43-71 | with one thread making all the pops, one pop drains at a time |
| `LockFreeQueueFifo.PopsAreTaken` | data-access/common/lockfreequeue_funcs.h:58-68 | what `try_pop` has returned, with what it is about to return, is what was taken from the slots, in order |
| `LockFreeQueueFifo.PushesAreIssued` | data-access/common/lockfreequeue_funcs.h:28-38 | what a thread's `try_push` calls have accepted, with what they still publish, is what it holds tickets for, in call order |
| `LockFreeQueueFifo.SingleConsumerFifo` | data-access/common/lockfreequeue_funcs.h:15-71 | many producers and one consumer: `Fifo`, that is, the popped values are a prefix of one interleaving of the producers' values that keeps every producer's own order |
| `LockFreeQueueFifo.SingleConsumerLosesNothing` | data-access/common/lockfreequeue_funcs.h:15-71 | once every call has returned and the ring is empty, the popped values are exactly the pushed ones: none lost, none twice |
| `LockFreeQueueTwoConsumers.TwoConsumersMixLaps` | data-access/common/lockfreequeue_funcs.h:62-66 | for every capacity from 2 on and any two consumers and two producers there is a run that ends with the pop of ticket 0 returning the item pushed under ticket `capacity`, while the push of ticket 0 still waits to write its own |
| `LockFreeQueueTwoConsumers.TwoConsumersPopTwice` | data-access/common/lockfreequeue_funcs.h:62-66 | for every capacity from 2 on, any two consumers making all the pops, any producer and any two values there is a run whose last two returned values are both the first value, although only its first push was called with it if the values differ |
| `LockFreeQueueExactly.FifoExactlyForOneConsumer` | data-access/common/lockfreequeue_funcs.h:43-71 | for every capacity from 1 on: every run whose pops come from a set of threads keeps first-in first-out order if and only if the set has at most one thread or the capacity is 1, and the same for returning no value more often than it was pushed |
| `LockFreeQueueExactly.LinearizableExactlyWhen` | data-access/common/lockfreequeue_funcs.h:15-71 | for every capacity from 1 on: every run whose pops come from a set of threads and in which at most a given number of pushes are accepted is a run of the atomic queue if and only if the set has at most one thread, or the number is at most the capacity, or the capacity is 1 |
| `LockFreeQueueExactly.LinearizablePopsWereCalled` | data-access/common/lockfreequeue_funcs.h:15-71 | a run that is linearizable returns no value more often than pushes were called with it |
| `LockFreeQueueExactly.RunIsStuck` | data-access/common/lockfreequeue_funcs.h:22-25 | a ring of capacity 1 never accepts a push and never returns a value |
| `LockFreeQueueWrites.WriterSawFlagClear` | data-access/common/lockfreequeue_funcs.h:33-38 | in every run, with any number of producers, consumers and laps: a thread that writes its slot has, at an earlier step of its own for that ticket, seen the slot's flag clear, and done nothing since but write the value |
| `LockFreeQueueWrites.ReaderSawFlagSet` | data-access/common/lockfreequeue_funcs.h:62-68 | likewise a thread that reads its slot has seen the flag set |
| `LockFreeQueueWrites.WritesGoToFreeSlots` | data-access/common/lockfreequeue_funcs.h:33-36 | in every run in which no two threads are past the producer's spin for one slot: every value is written into a slot whose flag is clear, however late a pop drains |
| `LockFreeQueueWrites.PublishedStays` | data-access/common/lockfreequeue_funcs.h:33-70 | in such runs a published value stays in its slot, flag set, until a pop clears the flag |
| `LockFreeQueueWrites.OneProducerIsOneWriter` | data-access/common/lockfreequeue_funcs.h:28-33 | one producer is enough for that, with any number of consumers and laps |
| `LockFreeQueueWrites.UnlappedIsOneWriter` | data-access/common/lockfreequeue_funcs.h:28-33 | so is that no push laps a draining pop, with any number of producers |
| `LockFreeQueueWrites.TwoOnEachSideOverwrite` | data-access/common/lockfreequeue_funcs.h:33-38 | with any two producers and any two consumers, for every capacity from 2 on: a run after which a producer is about to write over a value that is published and not released |
| `LockFreeQueueWrites.NeverOverwritesExactlyWhen` | data-access/common/lockfreequeue_funcs.h:33-38 | for producers and consumers that are different threads: in every run no thread is about to do so if and only if there is at most one producer, or at most one consumer, or the capacity is 1 |
| `SkipList.Skiplist.MakeNode` | data-access/common/skiplist_funcs.h:6-15 | entries below the level are null and the others are left unset |
| `SkipList.Skiplist.GetInsertLevel` | data-access/common/skiplist_funcs.h:17-38 | the number of heads before the first tail, at most 9, for every outcome of the coins |
| `SkipList.Skiplist.constructor` | data-access/common/skiplist_funcs.h:40-43 | an empty list that is valid |
| `SkipList.Skiplist.WalkLevel` | data-access/common/skiplist_funcs.h:55-60 | the walk on one level ends at the last node that reaches the level and has a smaller key, reading only entries that are set |
| `SkipList.Skiplist.Descend` | data-access/common/skiplist_funcs.h:52-65 | on every level the descent leaves the last node with a smaller key in the path and ends before the first key not smaller; `Remove`, `Search`, `RangeGet` and `RangeCount` repeat it |
| `SkipList.Skiplist.SpliceLevel` | data-access/common/skiplist_funcs.h:89-90 | one level relinked: the new node stands between the predecessor and its old successor and no other link changed |
| `SkipList.Skiplist.Splice` | data-access/common/skiplist_funcs.h:88-91 | the levels up to the new node's are relinked, those above untouched |
| `SkipList.Skiplist.Raise` | data-access/common/skiplist_funcs.h:73-80 | the list's level becomes the greater of the two and the added levels start at the head |
| `SkipList.Skiplist.Attach` | data-access/common/skiplist_funcs.h:82-91 | the new node joins the list at its place in the key order with the given height; every level stays linked and sorted |
| `SkipList.Skiplist.Overwrite` | data-access/common/skiplist_funcs.h:67-71 | a present key gets the value and nothing else changes |
| `SkipList.Skiplist.Modify` | data-access/common/skiplist_funcs.h:45-92 | keeps the whole invariant and makes the map `map[k := v]`; a present key changes its value only, an absent one gets a node whose height is the number of heads before the first tail, at most 9 |
| `SkipList.Skiplist.UnspliceLevel` | data-access/common/skiplist_funcs.h:113-113 | one level unlinked and no other link changed |
| `SkipList.Skiplist.Unsplice` | data-access/common/skiplist_funcs.h:112-114 | the loop that stops at the first level whose predecessor does not point to the node unlinks it on every level it reaches |
| `SkipList.Skiplist.Detach` | data-access/common/skiplist_funcs.h:111-118 | the removed node is no longer reachable and the map loses its key only |
| `SkipList.Skiplist.Lower` | data-access/common/skiplist_funcs.h:120-122 | the level drops to the highest level in use |
| `SkipList.Skiplist.Remove` | data-access/common/skiplist_funcs.h:94-124 | keeps the whole invariant; the map loses exactly k, and the freed node is on no level |
| `SkipList.Skiplist.Search` | data-access/common/skiplist_funcs.h:126-146 | answers whether the map has the key, gives its value and leaves `v` alone if it has not |
| `SkipList.Skiplist.RangeGet` | data-access/common/skiplist_funcs.h:148-173 | the values with st <= k <= ed in ascending key order |
| `SkipList.Skiplist.RangeCount` | data-access/common/skiplist_funcs.h:175-200 | how many keys lie from st to ed |
| `SkipList.Skiplist.Destroy` | data-access/common/skiplist.h:32-49 | every node is freed exactly once, the head last; by the preconditions of `NextBottom` and `Free`, no entry of a freed node is read and no node is freed again |
| `SkipList.Skiplist.NextBottom` | data-access/common/skiplist.h:33-35 | reads the lowest entry of a node that is not freed |
| `SkipList.Skiplist.Perform` | data-access/common/skiplist_funcs.h:45-200 | one operation answers and changes the map as an ordered map does |
| `SkipList.Skiplist.RunAll` | data-access/common/skiplist_funcs.h:45-200 | any run of operations, under any coins, is answered as by the ordered map |
| `SkipListSpec.RangeHasOneValuePerKey` | data-access/common/skiplist_funcs.h:175-200 | the list of a range has one value for each of its keys, so that `RangeCount` is the length of what `RangeGet` gives |
| `SkipListSpec.RangeIsAscending` | data-access/common/skiplist_funcs.h:148-173 | the list of a range holds the values of exactly its keys, each once, in strictly ascending key order |
| `SkipList.SplicedLinks` | data-access/common/skiplist_funcs.h:87-91 | relinking on the levels up to the height is enough: every entry then leads to the next node that reaches its level |
| `SkipList.UnsplicedLinks` | data-access/common/skiplist_funcs.h:112-114 | the same for unlinking |
| `SkipListShape.WalkStops` | data-access/common/skiplist_funcs.h:55-60 | the walk's stopping place is the predecessor on its level |
| `Wire.VarintRoundTrip` | data-access/thirdparty/include/google/protobuf/io/coded_stream.h:225-231 | a varint is read back, whatever follows; the 32-bit reading is the 64-bit one cut down |
| `Wire.VarintBytes` | data-access/thirdparty/include/google/protobuf/io/coded_stream.h:225-231 | byte i of a varint holds the i-th group of seven bits of the number, its high bit says whether more follow, and there is no superfluous byte |
| `Wire.VarintSum` | data-access/thirdparty/include/google/protobuf/io/coded_stream.h:225-231 | the groups of seven bits of its bytes, each times its power of 128, add up to the number |
| `Wire.VarintOfBytes` | data-access/thirdparty/include/google/protobuf/io/coded_stream.h:225-231 | for all bytes: a varint ends at the first byte below 128 among the first ten and is the sum of its groups, modulo 2^64 or 2^32; without such a byte reading fails |
| `Wire.TwosComplement` | data-access/thirdparty/include/google/protobuf/wire_format_lite_inl.h:59-75 | signed numbers are written, and read back, as what they are modulo 2^64 and 2^32 |
| `Wire.SignedRoundTrip` | data-access/thirdparty/include/google/protobuf/wire_format_lite_inl.h:59-75 | negative `int64` and `int32` values come back, the latter through 64-bit sign extension and truncation to 32 bits |
| `Wire.IntLength` | data-access/thirdparty/include/google/protobuf/io/coded_stream.h:1095-1101 | the size computed for a number is what its encoding takes; every negative number takes ten bytes |
| `Wire.BytesRoundTrip` | data-access/thirdparty/include/google/protobuf/wire_format_lite.h:300-300 | a length-delimited string is read back, whatever follows |
| `Wire.FixedRoundTrip` | data-access/thirdparty/include/google/protobuf/io/coded_stream.h:213-215 | a fixed-width number is read back, whatever follows |
| `Wire.FixedBytes` | data-access/thirdparty/include/google/protobuf/io/coded_stream.h:213-215 | byte i of a fixed-width number is its i-th octet from below |
| `Wire.FixedOfBytes` | data-access/thirdparty/include/google/protobuf/io/coded_stream.h:213-215 | for all bytes: the first n of them, each times its power of 256, added up, or a failure if there are fewer |
| `UnknownFields.FieldRoundTrip` | data-access/thirdparty/include/google/protobuf/wire_format.h:133-142 | an unknown field, with groups in groups, is read back whatever follows exactly when its groups are nested no deeper than allowed |
| `UnknownFields.PayloadBytes` | data-access/thirdparty/include/google/protobuf/wire_format.h:133-142 | the three low bits of a tag tell a varint, eight bytes, a length and bytes, fields up to the end tag of the group, or four bytes; the bits above are the number |
| `UnknownFields.GroupRoundTrip` | data-access/thirdparty/include/google/protobuf/wire_format.h:133-142 | the same for the fields of a group up to its own end tag |
| `CodedStream.GroupEndsAtItsTag` | data-access/thirdparty/include/google/protobuf/wire_format.h:133-142 | a group that is read ends at an end tag of its own number; what is left are the bytes behind it |
| `UnknownFields.ReadIsSound` | data-access/thirdparty/include/google/protobuf/wire_format.h:133-142 | whatever bytes are read as an unknown field, the field stands under its tag, is in range and within the allowed depth |
| `UnknownFields.FieldsLength` | data-access/thirdparty/include/google/protobuf/wire_format.h:168-168 | the size computed for unknown fields is what they take |
| `ProtoMessage.Parse` | data-access/proto/minos.pb.cc:4196-4299 | the plain loop that reads a tag and then its field, for any message type, keeps every field in the range of its type; the independent reference of the parsers |
| `ProtoMessage.Find` | data-access/proto/minos.pb.cc:4200-4298 | the entry whose tag stands in the input: the first with that tag, or none |
| `ProtoRoundTrip.EncodedMessage` | data-access/proto/minos.pb.cc:4191-4349 | parsing an encoded message into any message of the type merges it, or fails exactly when it is nested too deep |
| `ProtoRoundTrip.EncodedSlot` | data-access/proto/minos.pb.cc:4201-4285 | the same for one field, whatever bytes follow |
| `ProtoRoundTrip.EncodedList` | data-access/proto/minos.pb.cc:4260-4272 | the same for a repeated message field: the elements are added in order |
| `ProtoRoundTrip.EncodedUnknown` | data-access/proto/minos.pb.cc:4287-4297 | unknown fields are appended in order |
| `ProtoRoundTrip.MergeIntoBlank` | data-access/proto/minos.pb.cc:4467-4488 | merging into an empty message gives the other one |
| `ProtoRoundTrip.MergeBlank` | data-access/proto/minos.pb.cc:4467-4488 | merging an empty message changes nothing |
| `ProtoRoundTrip.MergeTyped` | data-access/proto/minos.pb.cc:4467-4488 | merging keeps every field in the range of its type |
| `ProtoLaws.RoundTrip` | data-access/proto/minos.pb.cc:4191-4349 | for every message type, presence, number, nesting and unknown fields: parsing what was serialized gives the message, or fails exactly when it is nested deeper than the reader allows |
| `ProtoLaws.RoundTripExactly` | data-access/proto/minos.pb.cc:4191-4349 | when the lengths fit, a message comes back exactly if a reader of that depth could have built it |
| `ProtoLaws.EncodedThenBytes` | data-access/proto/minos.pb.cc:4191-4307 | any bytes after an encoding go on from the encoded message |
| `ProtoLaws.ConcatenationMerges` | data-access/proto/minos.pb.cc:4467-4488 | two encodings one after the other parse as the two messages merged: last scalar wins, repeated fields joined, single messages merged, unknown fields appended |
| `ProtoLaws.ParseIntoMerges` | data-access/proto/minos.pb.cc:4191-4307 | for all bytes, accepted or not: parsing into a merged message is merging what the bytes parse as |
| `ProtoLaws.ParseIntoIsMerge` | data-access/proto/minos.pb.cc:4191-4307 | parsing any bytes into a message is `MergeFrom` of what they parse as on their own |
| `ProtoLaws.ParseIsReadable` | data-access/proto/minos.pb.cc:4287-4297 | every parse that ends builds a message whose unknown fields are in range, carry no known tag and are within the depth, at every level |
| `ProtoLaws.RewritingKeepsTheMessage` | data-access/proto/minos.pb.cc:4191-4349 | any accepted bytes, serialized again and parsed again, give the same message, if the nested lengths serialized stay below 2^31 |
| `ProtoLaws.OverlongLengthIsAccepted` | data-access/thirdparty/include/google/protobuf/io/coded_stream.h:309-320 | a nested length beyond the end of the input parses as if it ended there, so cutting a message short inside its last nested message is not noticed |
| `ProtoLaws.ReadableAndFits` | data-access/proto/minos.pb.cc:4191-4349 | the hypotheses of the round trip, stated as what a parse can build and as lengths below 2^31 |
| `ProtoConcatenation.MessageThenBytes` | data-access/proto/minos.pb.cc:4191-4307 | any bytes behind any accepted bytes go on from the message read, if the lengths of the messages nested in the first stay inside them |
| `ProtoConcatenation.ConcatenatedBytesMerge` | data-access/proto/minos.pb.cc:4467-4488 | accepted bytes from any writer, in any field order, followed by any bytes parse as the two parses merged, under the same condition |
| `ProtoConcatenation.CutMessageSwallowsWhatFollows` | data-access/thirdparty/include/google/protobuf/io/coded_stream.h:309-320 | what follows a nested message cut short is read as part of it |
| `ProtoConcatenation.CutMessageDoesNotMerge` | data-access/proto/minos.pb.cc:4467-4488 | whenever an inner length reaches beyond accepted bytes, concatenation with a single zero byte does not parse as the two parses merged: the zero byte ends the nested message instead of the outer one |
| `ProtoConcatenation.ShortestCut` | data-access/thirdparty/include/google/protobuf/io/coded_stream.h:309-320 | a concrete input of that kind for every schema with a message field: the field's tag and the length 1, with nothing behind it, is accepted |
| `ProtoConcatenation.ConcatenationMergesExactlyWhen` | data-access/proto/minos.pb.cc:4467-4488 | accepted bytes, followed by whatever bytes, always parse as the two parses merged if and only if the nested lengths of the first stay inside them |
| `ProtoConcatenation.EndsAtOnce` | data-access/proto/minos.pb.cc:4287-4293 | a message ends, legitimately, at the end of its bytes, and not legitimately at a malformed tag, at tag 0 and at the end tag of a group; a tag of wire type 6 or 7 is a failure |
| `ProtoRepeats.ScalarIsSet` | data-access/proto/minos.pb.cc:4201-4258 | a scalar read is set, whatever the field held before |
| `ProtoRepeats.LastScalarWins` | data-access/proto/minos.pb.cc:4201-4258 | of two occurrences of a scalar field the first has no effect, whatever follows |
| `ProtoRepeats.TwoOccurrencesAreOne` | data-access/proto/minos.pb.cc:4274-4285 | two occurrences of a single message field, the first complete in itself, are read as one occurrence with the bytes of both bodies, whatever bytes the second has and whatever the message held before |
| `ProtoRepeats.FirstOccurrence` | data-access/proto/minos.pb.cc:4274-4285 | the first occurrence makes the message its body says |
| `ProtoRepeats.RepeatedIsAdded` | data-access/proto/minos.pb.cc:4260-4272 | every occurrence of a repeated message adds the message its body says behind the others, or fails the parse |
| `ProtoSizes.SizeIsLength` | data-access/proto/minos.pb.cc:4396-4453 | the size added up field by field is the number of bytes serialized, with every nested length |
| `CodedStream.CodedInput.ReadTag` | data-access/thirdparty/include/google/protobuf/io/coded_stream.h:233-250 | a tag, or 0 at the end (then legitimate) and for a malformed tag (then not); `known` tells the cutoff but says nothing of tag 0 |
| `CodedStream.CodedInput.Next` | data-access/proto/minos.pb.cc:4197-4199 | after a jump or a tag read, what is left to do is what the plain loop would do |
| `CodedStream.CodedInput.ExpectTag` | data-access/thirdparty/include/google/protobuf/io/coded_stream.h:936-957 | answers yes only if the tag's shortest form stands next, and then moves past it; it may answer no at any time |
| `CodedStream.CodedInput.Jump` | data-access/proto/minos.pb.cc:4211-4211 | jumping to a field's label after `ExpectTag` is what reading that tag would do, and so is not jumping |
| `CodedStream.CodedInput.ExpectAtEnd` | data-access/thirdparty/include/google/protobuf/io/coded_stream.h:980-993 | answers yes only at the end, where the plain loop would succeed; it may answer no at any time |
| `CodedStream.CodedInput.ReadInt32` | data-access/thirdparty/include/google/protobuf/wire_format_lite_inl.h:59-66 | one case of an `int32` field, as in the plain loop |
| `CodedStream.CodedInput.ReadInt64` | data-access/thirdparty/include/google/protobuf/wire_format_lite_inl.h:68-75 | one case of an `int64` field, as in the plain loop |
| `CodedStream.CodedInput.ReadString` | data-access/thirdparty/include/google/protobuf/wire_format_lite.h:300-300 | one case of a string field, as in the plain loop |
| `CodedStream.CodedInput.SkipUnknown` | data-access/thirdparty/include/google/protobuf/wire_format.h:133-142 | one unknown field, as in the plain loop |
| `CodedStream.CodedInput.PushLimit` | data-access/thirdparty/include/google/protobuf/io/coded_stream.h:309-320 | the new limit never reaches beyond the one in force |
| `CodedStream.CodedInput.Enter` | data-access/thirdparty/include/google/protobuf/wire_format_lite_inl.h:484-487 | down to a nested message's bytes, refused for a malformed length or at the depth limit |
| `CodedStream.CodedInput.Leave` | data-access/thirdparty/include/google/protobuf/wire_format_lite_inl.h:494-495 | back to the bytes after the nested message, with depth and limit restored |
| `CodedStream.TagZeroIsUnknown` | data-access/proto/minos.pb.cc:4287-4293 | tag 0 ends a message, not legitimately |
| `CodedStream.KnownTurn` | data-access/proto/minos.pb.cc:4201-4213 | one turn of the plain loop at a known tag |
| `CodedStream.CodedOutput.WriteInt` | data-access/thirdparty/include/google/protobuf/wire_format_lite.h:337-338 | an optional number is written as the next field of the encoding, or left out |
| `CodedStream.CodedOutput.WriteString` | data-access/thirdparty/include/google/protobuf/wire_format_lite.h:352-352 | the same for an optional string |
| `PartitionProgressCodec.PartitionProgress.Known` | data-access/proto/minos.pb.cc:3876-3918 | the case of a known tag with its jump to the next label: does to the object what the plain loop does |
| `PartitionProgressCodec.PartitionProgress.MergePartialFromCodedStream` | data-access/proto/minos.pb.cc:3866-3940 | for every input and every choice of the answers of `ExpectTag` and `ExpectAtEnd`: fails, succeeds, and ends legitimately exactly as the plain loop, with the same message |
| `PartitionProgressCodec.PartitionProgress.Unusual` | data-access/proto/minos.pb.cc:3920-3930 | `handle_unusual`: tag 0 or an end-group tag ends the message, anything else is kept as an unknown field or fails |
| `PartitionProgressCodec.PartitionProgress.ReadMessage` | data-access/thirdparty/include/google/protobuf/wire_format_lite_inl.h:482-497 | a nested message is read from its length as the plain loop reads it, and must end at its limit |
| `PartitionProgressCodec.PartitionProgress.WriteMessage` | data-access/thirdparty/include/google/protobuf/wire_format_lite.h:367-367 | the length written from the cached size equals the bytes that follow it |
| `PartitionProgressCodec.PartitionProgress.ByteSize` | data-access/proto/minos.pb.cc:3993-4027 | the number of bytes the message takes; kept for the serializer |
| `PartitionProgressCodec.PartitionProgress.SerializeWithCachedSizes` | data-access/proto/minos.pb.cc:3942-3964 | appends exactly the encoding |
| `PartitionProgressCodec.PartitionProgress.FieldBytes` | data-access/proto/minos.pb.cc:3942-3964 | the bytes serialized, by the names of the fields: each field that is present, in this order, under a tag of these literal bytes, and then the unknown fields |
| `PartitionProgressCodec.PartitionProgress.MergeFrom` | data-access/proto/minos.pb.cc:4042-4056 | the object becomes the two messages merged; field by field: the other's value where it has one, else the old one, elements and unknown fields appended |
| `UserAccountCodec.UserAccountMessage.Known` | data-access/proto/minos.pb.cc:1382-1396 | the case of a known tag with its jump to the next label: does to the object what the plain loop does |
| `UserAccountCodec.UserAccountMessage.MergePartialFromCodedStream` | data-access/proto/minos.pb.cc:1372-1418 | for every input and every choice of the answers of `ExpectTag` and `ExpectAtEnd`: fails, succeeds, and ends legitimately exactly as the plain loop, with the same message |
| `UserAccountCodec.UserAccountMessage.ReadMessage` | data-access/thirdparty/include/google/protobuf/wire_format_lite_inl.h:482-497 | as for `PartitionProgress` |
| `UserAccountCodec.UserAccountMessage.WriteMessage` | data-access/thirdparty/include/google/protobuf/wire_format_lite.h:367-367 | as for `PartitionProgress` |
| `UserAccountCodec.UserAccountMessage.ByteSize` | data-access/proto/minos.pb.cc:1462-1482 | the number of bytes the message takes; kept for the serializer |
| `UserAccountCodec.UserAccountMessage.SerializeWithCachedSizes` | data-access/proto/minos.pb.cc:1420-1438 | appends exactly the encoding |
| `UserAccountCodec.UserAccountMessage.FieldBytes` | data-access/proto/minos.pb.cc:1420-1438 | the bytes serialized, by the names of the fields: each field that is present, in this order, under a tag of these literal bytes, and then the unknown fields |
| `UserAccountCodec.UserAccountMessage.MergeFrom` | data-access/proto/minos.pb.cc:1497-1505 | the object becomes the two messages merged; field by field: the other's value where it has one, else the old one, elements and unknown fields appended |
| `RecordHeaderCodec.PbRecordHeader.Known` | data-access/proto/minos.pb.cc:646-750 | the case of a known tag with its jump to the next label: does to the object what the plain loop does |
| `RecordHeaderCodec.PbRecordHeader.MergePartialFromCodedStream` | data-access/proto/minos.pb.cc:636-772 | for every input and every choice of the answers of `ExpectTag` and `ExpectAtEnd`: fails, succeeds, and ends legitimately exactly as the plain loop, with the same message |
| `RecordHeaderCodec.PbRecordHeader.Unusual` | data-access/proto/minos.pb.cc:752-762 | `handle_unusual`, with the cutoff of two-byte tags |
| `RecordHeaderCodec.PbRecordHeader.KnownInt64` | data-access/proto/minos.pb.cc:646-718 | the five `int64` cases |
| `RecordHeaderCodec.PbRecordHeader.KnownPartitionId` | data-access/proto/minos.pb.cc:720-733 | the field of tag 152, in two bytes |
| `RecordHeaderCodec.PbRecordHeader.KnownExternalCheckpoint` | data-access/proto/minos.pb.cc:735-750 | the field of tag 178, in two bytes |
| `RecordHeaderCodec.PbRecordHeader.ByteSize` | data-access/proto/minos.pb.cc:876-937 | the number of bytes the message takes; kept for the serializer |
| `RecordHeaderCodec.PbRecordHeader.SerializeWithCachedSizes` | data-access/proto/minos.pb.cc:774-822 | appends exactly the encoding |
| `RecordHeaderCodec.PbRecordHeader.FieldBytes` | data-access/proto/minos.pb.cc:774-822 | the bytes serialized, by the names of the fields: each field that is present, in this order, under a tag of these literal bytes, and then the unknown fields |
| `RecordHeaderCodec.PbRecordHeader.MergeFrom` | data-access/proto/minos.pb.cc:953-979 | the object becomes the two messages merged; field by field: the other's value where it has one, else the old one, elements and unknown fields appended |
| `PartitionGroupCodec.PartitionGroupProgress.Known` | data-access/proto/minos.pb.cc:4201-4285 | the case of a known tag with its jump to the next label: does to the object what the plain loop does |
| `PartitionGroupCodec.PartitionGroupProgress.MergePartialFromCodedStream` | data-access/proto/minos.pb.cc:4191-4307 | for every input and every choice of the answers of `ExpectTag` and `ExpectAtEnd`: fails, succeeds, and ends legitimately exactly as the plain loop, with the same message |
| `PartitionGroupCodec.PartitionGroupProgress.KnownProgress` | data-access/proto/minos.pb.cc:4260-4272 | a new element is added and filled; then another element or the account may follow |
| `PartitionGroupCodec.PartitionGroupProgress.KnownAccount` | data-access/proto/minos.pb.cc:4274-4285 | the account is parsed into the one there is |
| `PartitionGroupCodec.PartitionGroupProgress.Unusual` | data-access/proto/minos.pb.cc:4287-4297 | `handle_unusual` |
| `PartitionGroupCodec.PartitionGroupProgress.AddProgressSizes` | data-access/proto/minos.pb.cc:4436-4442 | the elements' sizes are added and every element keeps its own |
| `PartitionGroupCodec.PartitionGroupProgress.WriteProgress` | data-access/proto/minos.pb.cc:4332-4335 | every element is written with its cached size as length |
| `PartitionGroupCodec.PartitionGroupProgress.MergeProgress` | data-access/proto/minos.pb.cc:4469-4469 | a copy of every element is added in order |
| `PartitionGroupCodec.PartitionGroupProgress.MergeAccount` | data-access/proto/minos.pb.cc:4483-4485 | the account is merged recursively, or made |
| `PartitionGroupCodec.PartitionGroupProgress.ByteSize` | data-access/proto/minos.pb.cc:4396-4453 | the number of bytes the message takes; kept for the serializer |
| `PartitionGroupCodec.PartitionGroupProgress.SerializeWithCachedSizes` | data-access/proto/minos.pb.cc:4309-4349 | appends exactly the encoding |
| `PartitionGroupCodec.PartitionGroupProgress.FieldBytes` | data-access/proto/minos.pb.cc:4309-4349 | the bytes serialized, by the names of the fields: each field that is present, in this order, under a tag of these literal bytes, and then the unknown fields |
| `PartitionGroupCodec.PartitionGroupProgress.MergeFrom` | data-access/proto/minos.pb.cc:4467-4488 | the object becomes the two messages merged; field by field: the other's value where it has one, else the old one, elements and unknown fields appended, and the account merged: its token is the other's if set, else the old one, its unknown fields appended |
| `PartitionGroupCodec.Write` | data-access/proto/minos.pb.cc:4309-4453 | `ByteSize` and then the serializer give the encoding, and change no field |
| `PartitionGroupCodec.Read` | data-access/proto/minos.pb.cc:4191-4307 | bytes are accepted exactly if the plain loop ends legitimately on all of them, with the same message |
| `PartitionGroupCodec.Transfer` | data-access/proto/minos.pb.cc:4191-4488 | what one object writes, another reads: the reader ends up merged with the writer |
| `ThreadPoolLaws.RunKeepsCounters` | data-access/common/thread_pool.cc:42-118 | at every step of every run: tasks added are queued, running or finished; `running_num_` is the number of workers in a body; `pending_num_` is the length of the deque less the timer firings, modulo 2^64 |
| `ThreadPoolLaws.RunKeepsTasks` | data-access/common/thread_pool.cc:42-118 | at every step: started and queued tasks together are all tasks added, each once, and each body runs in one worker, once |
| `ThreadPoolLaws.EveryStartWasFromFront` | data-access/common/thread_pool.cc:108-115 | whatever task has been started as the j-th was at the front of the deque at the step that started it |
| `ThreadPoolLaws.StartsInOrder` | data-access/common/thread_pool.cc:42-56 | without priority tasks, tasks start in the order they were added |
| `ThreadPoolOrder.OrderIsKept` | data-access/common/thread_pool.cc:42-56 | of two tasks the one that is ahead, started or queued, stays ahead, whatever is added later |
| `ThreadPoolOrder.TaskStartsAfterQueued` | data-access/common/thread_pool.cc:42-48 | a task added by `AddTask` starts after every task queued then |
| `ThreadPoolOrder.PriorityTaskStartsBeforeQueued` | data-access/common/thread_pool.cc:50-56 | a task added by `AddPriorityTask` starts before every task queued then |
| `ThreadPoolTimers.RunKeepsTimers` | data-access/common/thread_pool.cc:58-105 | at every step: a periodic timer has exactly one armed instance, a one-shot timer is armed or has fired once, and every firing came at or after the deadline of its last arming |
| `ThreadPoolTimers.EveryFiringWasEarliestDue` | data-access/common/thread_pool.cc:85-102 | whatever firing is the j-th of a run, at the step that made it its timer was due at the clock value read and no timer then armed was due earlier; that worker then runs the body of that timer |
| `ThreadPoolTimers.FiringsAreSpaced` | data-access/common/thread_pool.h:16-19 | two firings of a timer are at least its period apart, from the clock value the first was armed again with |
| `ThreadPoolTimers.TimerOfItsCall` | data-access/common/thread_pool.cc:58-72 | for the k-th event of a run, `AddDelayTask(timeval, now)` or `AddTimerTask(timeval, now)`: the timer it adds keeps exactly these arguments and whether it repeats, in all later states |
| `ThreadPoolTimers.FirstFiringKeepsTheDelay` | data-access/common/thread_pool.h:16-19 | that timer does not fire before `now + timeval`: a one-shot timer never, a periodic one not for the first time |
| `ThreadPoolTimers.EveryFiringKeepsTheDelay` | data-access/common/thread_pool.h:16-19 | a periodic timer does not at any time either, if its delay is not negative and a worker that arms it again reads the clock no earlier than it compared it |
| `ThreadPoolTimers.ClockGoesBack` | data-access/common/thread_pool.h:16-19 | without such a clock it can: a run in which a timer of period 5 called at 0 fires at 5 and then at -5 |
| `ThreadPoolTimers.ArmedUntilItFires` | data-access/common/thread_pool.cc:58-72 | until it fires it stands armed, due from exactly `now + timeval` on |
| `ThreadPoolTimers.ArmedAgain` | data-access/common/thread_pool.cc:91-95 | after it fired, a periodic timer stands armed, due from exactly the clock value read when it was armed again plus its period |
| `ThreadPoolStop.RunKeepsWakeLaw` | data-access/common/thread_pool.cc:42-83 | no lost wakeup: in every reachable state of a running pool with work, some worker is not asleep; any number of workers, spurious wakeups included |
| `ThreadPoolStop.FrontTaskCanStart` | data-access/common/thread_pool.cc:74-118 | whenever the deque is not empty, some worker is at most three of its own steps from having started the front task, whatever the clock shows |
| `ThreadPoolStop.DueTimerCanFire` | data-access/common/thread_pool.cc:74-118 | whenever the earliest armed timer is due, some worker is at most three of its own steps from having fired it, whatever is queued |
| `ThreadPoolStop.PollPassesExactlyWhen` | data-access/common/thread_pool.cc:25-31 | `Stop(true)` stops polling exactly when deque length and firings agree modulo 2^64; without firings, exactly when the deque is empty |
| `ThreadPoolStopCalls.NoPolling` | data-access/common/thread_pool.cc:24-31 | in every run without `Stop(true)` nobody ever polls |
| `ThreadPoolStopCalls.UngracefulStopsAtOnce` | data-access/common/thread_pool.cc:24-33 | after `Stop(false)` the caller's next step is to set `stop_`: it is always possible, and no other step of the caller is, whatever is queued, running or pending |
| `ThreadPoolStopCalls.GracefulWaitsForZero` | data-access/common/thread_pool.cc:25-33 | after `Stop(true)` `stop_` is set, or can be, only if a poll in between has read a `pending_num_` of zero |
| `ThreadPoolStopCalls.StopReturns` | data-access/common/thread_pool.cc:35-39 | `Stop` returns with all workers gone, the counters at zero and everything else as it was |
| `ThreadPoolStopCalls.StoppedWorkerExits` | data-access/common/thread_pool.cc:74-118 | once `stop_` is set, no worker makes more than three steps of its own in any run, whatever the others do |
| `ThreadPoolStopCalls.StoppedWorkerCanMove` | data-access/common/thread_pool.cc:74-118 | and each has one it can make until it has exited, so the joins come to an end |
| `ThreadPoolStop.GracefulStopRunsEverything` | data-access/common/thread_pool.cc:25-40 | without timers, or without workers, and without adds after the poll: once all workers are joined every task ever added has run exactly once |
| `ThreadPoolGraceful.TimersDefeatGracefulStop` | data-access/common/thread_pool.cc:99-100 | with timers it fails for every number of workers: a run with all adds before the call in which `Stop(true)` returns and one of two tasks added never ran |
| `ThreadPoolGraceful.GracefulExactlyWithoutTimers` | data-access/common/thread_pool.cc:25-40 | for every number of workers: `Stop(true)` has run every task in all runs if and only if no timers are used, or there is no worker to fire them |
| `ThreadPoolGrace.StopLeavesBehind` | data-access/common/thread_pool.cc:33-40 | however `stop_` comes to be set, if nothing is added afterwards: once all workers are joined, the tasks never run are as many as the deque was longer than the number of workers then in a timer body; so all have run if and only if it was not longer |
| `ThreadPoolGrace.GracefulStopExactly` | data-access/common/thread_pool.cc:25-40 | `Stop(true)`: the poll that ended saw deque length and firings agree modulo 2^64, and every task is run if and only if the deque, when `stop_` is set, is no longer than the number of workers in a timer body |
| `ThreadPoolGrace.GracefulStopAtOnce` | data-access/common/thread_pool.cc:25-40 | if no other step comes between the poll and `stop_`: every task is run if and only if the body of every timer that ever fired still runs |
| `ThreadPoolAlert.RunKeepsReturning` | data-access/common/thread_pool.cc:42-118 | in every run, with any timers: the workers at the mutex, notified or in a timer's body, after which they look for work again, are at least as many as the queued tasks and armed timers, or as the workers not in a task's body if those are fewer |
| `ThreadPoolAlert.RunKeepsAlert` | data-access/common/thread_pool.cc:42-83 | in runs without periodic timers the workers at the mutex or notified are already that many, next to those not in a body |
| `ThreadPoolAlert.PeriodicTimerDefeatsAlert` | data-access/common/thread_pool.cc:91-95 | with a periodic timer that fails for every pool of at least two workers, as arming it again notifies no one: after one firing the timer is armed and nobody is ready |
| `ThreadPoolAlert.PeriodicTimerDelaysTask` | data-access/common/thread_pool.cc:91-95 | for every pool of at least three workers: a run after which a task stays queued, two workers are in the timer's body and the others sleep |
| `ThreadPoolAlert.EnoughExactlyWhen` | data-access/common/thread_pool.cc:42-118 | the workers at the mutex or notified are enough for all tasks and timers in every run if and only if no periodic timers are used or there is at most one worker |
| `ThreadPoolAlert.EnoughForTasksExactlyWhen` | data-access/common/thread_pool.cc:42-118 | they are enough for the queued tasks in every run if and only if no periodic timers are used or there are at most two workers |
| `Decimal.PrintThenRead` | data-access/common/trie.cc:47-47 | the digits printed for a number, read as a decimal number, give it back |
| `Decimal.PrintedDigits` | data-access/common/trie.cc:47-47 | character i from the end of a printed number is its decimal digit of weight 10^i, and only 0 starts with a zero |
| `Decimal.StoiOfPrint` | data-access/common/trie.cc:93-93 | `stoi` of `to_string` gives the number back exactly below 2^31, and throws from there on |
| `Decimal.ReadThenPrint` | data-access/common/trie.cc:93-93 | printing what was read gives the string back exactly when it has no leading zero |
| `Decimal.CutIsPrefix` | data-access/common/trie.cc:69-80 | the prefixes of a decimal are the decimals of the number without its last digits |
| `Decimal.PrintLength` | data-access/common/trie.cc:47-47 | a number below 10^k has at most k digits |
| `DecimalTrie.Trie.constructor` | data-access/common/trie.cc:6-11 | an index of no keys |
| `DecimalTrie.Trie.Child` | data-access/common/trie.cc:51-59 | one digit further, on the node that is there or a new one; every other string still leads to its own node |
| `DecimalTrie.Trie.Put` | data-access/common/trie.cc:46-65 | one more of the key; says whether it is new |
| `DecimalTrie.Trie.Insert` | data-access/common/trie.cc:46-66 | the multiset of keys grows by the key, and `size_` by one exactly if the key is new |
| `DecimalTrie.Trie.Search` | data-access/common/trie.cc:68-87 | `cnt` is the multiplicity of the key modulo 2^32; the answer is true exactly if the key's decimal is a prefix of an inserted key's |
| `DecimalTrie.Trie.DFS` | data-access/common/trie.cc:89-104 | collects exactly the keys below the node with their multiplicities, does not overwrite, restores `dfs_str`; throws exactly if a key below does not fit an `int` |
| `DecimalTrie.Trie.Dfs` | data-access/common/trie.h:40-43 | adds to a map exactly the keys it does not have, with their multiplicities, and keeps the pairs it has; throws exactly if some key is 2^31 or more |
| `DecimalTrie.LeadsExactly` | data-access/common/trie.cc:50-59 | the strings that lead to a node are the prefixes of the decimals of the keys, and no others |
| `DecimalTrie.FoundExactly` | data-access/common/trie.cc:82-85 | `Search` answers true exactly for the numbers that come from an inserted key by dropping last digits |
| `DecimalTrie.FoundButNeverInserted` | data-access/common/trie.cc:82-85 | so it answers true, with count 0, for numbers never inserted |
| `DecimalTrie.PathsAreShort` | data-access/common/trie.cc:47-47 | no path is longer than ten digits, so that the recursion of `DFS` ends |
| `TopKHeap.Heap.Swap` | data-access/common/heap.h:23-27 | exchanges two elements and no others |
| `TopKHeap.Heap.PickLargest` | data-access/common/heap_func.h:31-38 | the child that ranks highest, or the node itself |
| `TopKHeap.Heap.Adjust` | data-access/common/heap_func.h:28-45 | restores the order from a node down, by a rearrangement that leaves everything beyond the order in place |
| `TopKHeap.Heap.Init` | data-access/common/heap_func.h:17-26 | a rearrangement of the input in which every parent the guard covers ranks at or beyond its children |
| `TopKHeap.Heap.Setop` | data-access/common/heap.h:38-44 | kept and discarded elements are those of before and the new one; the discarded one ranks at or beyond every kept one, and whatever did so before still does |
| `TopKHeap.Heap.Getop` | data-access/common/heap.h:45-47 | an element that ranks at or beyond every kept one |
| `TopKHeap.Heap.TopK` | data-access/common/heap_func.h:17-45 | after `Init` and any stream of `Setop`: the array and the discarded elements are everything seen, with the last of an odd number (from 3 on) in its place and never compared; every discarded element ranks at or beyond every other one kept, and beyond the whole array if and only if the size is even or 1, or at least as many of the other elements seen as the stream is long rank at or beyond that last one |
| `TopKHeap.InitDominatesExactlyWhen` | data-access/common/heap_func.h:29-29 | `Init` puts a dominating element first exactly when the size is even or 1, or an earlier input element already ranks at or beyond the last |
| `TopKHeap.EvenSizesKeepAll` | data-access/common/heap_func.h:29-29 | for even sizes no element stays outside the order |
| `TopKHeap.RootDominates` | data-access/common/heap_func.h:17-26 | the root ranks at or beyond every element of the order |

## Left out

- C++ memory orderings and fences in `LFQ`, and the overflow of its `int` tickets: steps are sequentially consistent and tickets unbounded. A capacity below 1 is not modelled (the slot array would be empty or its size negative).
- LockFreeQueueRefinement.RunRefines: needs that no push laps a draining pop; beyond it, where a value can be returned twice, nothing is claimed.
- The class behind `LFQ` is a state, not an object: its operations are interleaved step by step, which methods of a class cannot express.
- Skip list keys are `int` ordered by `<` and equal by `==`; the null test on `head_`, which is never null, and the results of `RangeGet` and `RangeCount`, which are then always true, are left out.
- The descent loop, which the source repeats in five operations, is written once (`SkipList.Skiplist.Descend`).
- `coded_stream.cc` and `wire_format.cc` are not part of this model: the stream's primitives follow their headers and the Encoding guide. Buffer refills, the total-bytes limit, UTF-8 checks (which only log) and the `ToArray` serializers are left out.
- ProtoSizes.SizeIsLength: sizes are unbounded; the wrap-around of the `int` total for messages of 2^31 bytes and more is not modelled.
- Parsing that fails or ends illegitimately: a failed parse is told as failed, not with the fields it had set before.
- `Clear`, `CopyFrom`, `Swap` and the reflection entry of `MergeFrom`; a field's has-bit and value are one optional value, so the value of an absent field is not modelled.
- The other generated messages repeat the same patterns; the laws in `ProtoLaws` hold for every schema.
- The unlocked write of `stop_` and the wakeup it can lose: setting it and `notify_all` are one step, and stopping is proved as safety only. Exceptions from task bodies, `CancelTask`, `task_count_` (never read) and overflow in `Timertask` deadlines are left out.
- The thread pool is a transition system on values, because its operations interleave; update in place and the deque's and priority queue's own code are not modelled.
- `Trie::~Trie` and `ClearChildren`, `err_`, and the count of children, which only they read.
- DecimalTrie.Trie.DFS: says nothing of the map and `dfs_str` after `stoi` has thrown.
- TopKHeap.Heap.Init: the comparator is a pure function that answers 0 or 1 and ranks transitively; `Sort` and `Show` are left out.
- `ConsistentHash`, `Bitmap`, `Range`, configuration, time formatting, the RPC clients and the storage wrappers: library-bound or only easy members.
