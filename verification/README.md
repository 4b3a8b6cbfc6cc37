# Verified models of the seamless server's core

This project models the parts of a sharded game server whose correctness is not
visible from a single function, and proves what they promise. It is written in
Dafny; `dafny verify dfyconfig.toml` checks all of it.

| file | what it models |
|---|---|
| `AtomicQueue.dfy` | the lock-free ring between I/O threads and the worker, as a step system: every shared load, compare-and-swap, store and exchange is a step of its own, in any interleaving of any number of threads |
| `LinearWorkQueue.dfy` | the double-buffered hand-off built on two such rings, with the worker's swap-and-drain loop and producers that read the queue pointer before they push |
| `Varint.dfy`, `Zigzag.dfy`, `FastVarint.dfy` | varints and zigzag of struct_pack and struct_pb against one definition, and the bitset-headed "fast varint" group |
| `StructPackModel.dfy`, `StructPackCodec.dfy`, `StructPackSize.dfy`, `StructPack.dfy` | struct_pack's types, values, sizer, packer, unpacker and buffer header as functions, with the round trip and the exact size |
| `StructPackVersions.dfy`, `StructPackSafety.dfy`, `StructPackTyping.dfy`, `StructPackReuse.dfy` | version compatibility in both directions; truncated and arbitrary input; targets that have been used before |
| `StructPackMachine.dfy` | sizer, packer and unpacker as they run: accumulators, an appending writer, a reader with a cursor; each method is proved equal to the functions above |
| `SectorPosting.dfy`, `Agency.dfy` | the two-way sector/session index and the agency's client state machine |
| `SequentialBuffer.dfy` | the sliding, growing, rewinding array as a queue, with its amortised copy cost |
| `SectorGeometry.dfy` | overlap, location, phase and movement over reals, and the In/Gray/Leave machine |
| `MutexRing.dfy`, `Bits.dfy` | the ring under a lock with wrapping 32-bit counters; index shuffling and the next power of two |
| `WeightedRoundRobin.dfy` | weighted round robin host selection |
| `PacketThrottler.dfy` | packet frames and their batching into socket buffers |
| `IntrusivePtr.dfy` | intrusive reference counting |
| `Counting.dfy`, `Bytes.dfy` | counting in sequences; little-endian bytes |

State that the program updates in place is a class here (`StructPackMachine.Packer`
and `Unpacker`, `SectorPostingManager`, `AgencyWorker`, `SequentialBuffer`,
`SectorSystem`, `MutexRing`, `LoadBalancer`, `PacketThrottler`, `RefCounter`,
`Handle`). Their methods state the whole new state through a function, and the
theorems about whole runs are about those functions; for the handles, whose state
is spread over objects, `IntrusivePtr.Program` makes that connection. The two
concurrent components are step systems, since no method body can express an
interleaving.

## What the code does that its design does not say

Each of these is a lemma with the input that shows it, beside the exact condition
under which the promise holds.

- An owner that also listens to its sector and is then displaced keeps listening
  after `UnsetAll` (`SectorPosting.DisplacedListenerStays`); the index is kept by
  exactly the operations of `SectorPosting.StepKeepsIff`.
- A second spawn answer breaks the agency's routing unless it repeats the client's
  own object and sector (`Agency.SpawnIff`, reached in `Agency.SecondSpawnBreaks`).
- `related_sectors`, which is reported as the owned sectors, holds exactly those
  unless the id starts to listen to a sector it does not own
  (`SectorPosting.OwnershipIsExact`).
- `SequentialBuffer` overlaps its own copy for odd capacities and cannot grow from
  zero (`SequentialBuffer.SafeCapacities`); the assertion in `operator[]` admits
  indices past the contents unless the start index is zero
  (`SequentialBuffer.IndexGuard`).
- Copy-assigning an `IntrusivePtr` to itself loses the handle and keeps the count;
  self-move is a release (`IntrusivePtr.StepKeepsIff`).
- A gray band wider than a third of the sector gives fixtures outside the inner box
  phase Max (`SectorGeometry.PhaseOutsideIff`).
- A ring size that does not divide 2^32 reuses a slot when the counters wrap
  (`MutexRing.WindowsDifferIff`), and `was_empty`/`was_full` are wrong from size
  2^31 on (`MutexRing.TestsAreExact`).
- The unpacker drops the result code of the value inside an optional, a variant or
  a compatible member. After plain members, a buffer cut inside such a last member
  is refused if and only if nothing of that member is left
  (`StructPackSafety.CutAtLast`).
- The sizer counts, and the packer never writes, a compatible member inside a set
  compatible member: more bytes are asked for than written if and only if such a
  member is reached (`StructPack.NeededSizeIsExact`), it is lost if and only if it is
  set (`StructPack.RoundTripIff`), and a newer reader then depends on what the
  buffer holds after the written bytes (`StructPackVersions.UnpaddedReadIff`).
  `StructPack.NestedLosesMember` is the input.
- A promotion leaves its object in the origin's cache, so a second promotion from
  there passes the guards and trips the assertion on the client's sector
  (`Agency.RepeatedOriginReachable`, exactly when: `Agency.PromotionAssertsIff`).
- The unpacker does not clear its target: an empty container, an absent optional and
  a zero of a fast varint group leave what was there, so a buffer read into a used
  object gives its value back only under `StructPackReuse.ReuseIff` (the input:
  `StructPackReuse.EmptyListKeepsOld`).
- A lock-free ring of 2^31 slots refuses every push
  (`AtomicQueue.LargestRingRefuses`); below that the test is exact
  (`AtomicQueue.PushRefusedIff`).
- A new compatible member is told apart from a kept one if and only if its version
  is larger (`StructPackVersions.KeptMemberReadIff`).
- A post that loses its buffer and gets no other makes the session send a null
  buffer if and only if it is Immediate or the next event is a flush
  (`PacketThrottler.NoNullSendIff`).

## Model

| member | source | states |
|---|---|---|
| AtomicQueue.EveryRunIsSafe | thirdparty/include/atomic_queue/atomic_queue.h:268-304 | in every run of any number of try_push/try_pop threads from the empty queue, with stale counter loads: tail <= head <= tail + size, per-slot balance of claimed and completed operations, and completed pushes = completed pops + slot contents, value by value |
| AtomicQueue.StepKeeps | thirdparty/include/atomic_queue/atomic_queue.h:268-304 | every single step of every thread keeps that invariant |
| AtomicQueue.RunKeeps | thirdparty/include/atomic_queue/atomic_queue.h:268-304 | so does every run from any state that has it |
| AtomicQueue.SpinnerHasPartner | thirdparty/include/atomic_queue/atomic_queue.h:170-212 | a popper that finds its slot empty has a pusher in flight on that slot that can store now, and a pusher that finds it full has a popper that can take now |
| AtomicQueue.CompletionShrinks | thirdparty/include/atomic_queue/atomic_queue.h:183-211 | completing any operation that can complete leaves one operation fewer in flight |
| AtomicQueue.DrainSchedule | thirdparty/include/atomic_queue/atomic_queue.h:183-211 | from every reachable state there is a schedule that finishes all operations in flight, in as many steps as there are operations |
| AtomicQueue.QuietQueue | thirdparty/include/atomic_queue/atomic_queue.h:366-374 | with nothing in flight a slot is full exactly when an unpopped ticket uses it |
| AtomicQueue.DrainedQueue | thirdparty/include/atomic_queue/atomic_queue.h:366-374 | when all tickets are popped and all pops are complete, the values taken are exactly the values stored |
| AtomicQueue.SlotsOfWindowDiffer | thirdparty/include/atomic_queue/atomic_queue.h:366-374 | tickets less than the size apart use different slots, across the 32-bit wrap and the shuffle |
| AtomicQueue.FullTestExact | thirdparty/include/atomic_queue/atomic_queue.h:270-276 | for every distance below 2^32, when the wrapped signed full test lets a push go on |
| AtomicQueue.EmptyTestExact | thirdparty/include/atomic_queue/atomic_queue.h:289-295 | for every distance below 2^32, when the wrapped signed empty test lets a pop go on |
| AtomicQueue.PushRefusedIff | thirdparty/include/atomic_queue/atomic_queue.h:268-284 | on current counters, in every reachable state of a ring below 2^31 slots, try_push gives up if and only if the ring is full, and otherwise goes on to claim the ticket it read |
| AtomicQueue.PopRefusedIff | thirdparty/include/atomic_queue/atomic_queue.h:287-300 | try_pop gives up if and only if the ring is empty, and otherwise goes on to claim |
| AtomicQueue.CheckPushAnswers | thirdparty/include/atomic_queue/atomic_queue.h:270-281 | on loads of any permitted age the push gives up exactly when the two counters it read are at least one ring apart |
| AtomicQueue.CheckPopAnswers | thirdparty/include/atomic_queue/atomic_queue.h:289-300 | on such loads the pop gives up exactly when the head it read is not past the tail it read |
| AtomicQueue.PushSchedule | thirdparty/include/atomic_queue/atomic_queue.h:268-284 | whenever there is room, from every reachable state some schedule ends with try_push returned, one more ticket claimed and exactly its value more stored |
| AtomicQueue.PopSchedule | thirdparty/include/atomic_queue/atomic_queue.h:287-304 | whenever a ticket is outstanding, some schedule ends with try_pop returned and one more value taken |
| AtomicQueue.LargestRingRefuses | thirdparty/include/atomic_queue/atomic_queue.h:270-276 | a ring of 2^31 slots, whose size reads as a negative int, refuses every push |
| LinearWorkQueue.DeliveredWithinTwoRounds | common/concurrent/LinearWorker.h:28-44 | everything stored by a state has reached the worker once two swap-and-drain rounds that started after it are finished, also from producers that read the pointer before a swap |
| LinearWorkQueue.FinishRound | common/concurrent/LinearWorker.h:28-44 | from every reachable state a schedule ends the round under way, through any stores the worker waits for |
| LinearWorkQueue.DeliverySchedule | common/concurrent/LinearWorker.h:28-44 | from every reachable state a schedule hands over everything that was stored |
| LinearWorkQueue.PushedIsDeliverable | common/concurrent/LinearWorkQueue.h:44-49 | from every reachable state with room in the submission queue, some schedule takes a producer's value from the read of the queue pointer into the hand-over, on top of everything stored before |
| LinearWorkQueue.AlwaysDeliverable | common/concurrent/LinearWorker.h:28-44 | room can always be made: from every reachable state the value of any producer outside TryPush can be delivered |
| LinearWorkQueue.EveryRunIsSafe | common/concurrent/LinearWorkQueue.h:37-56 | in every run the worker never has more of a value than was stored, so nothing arrives twice, and one batch is at most one ring plus the threads |
| LinearWorkQueue.StepKeeps | common/concurrent/LinearWorkQueue.h:37-56 | every move of producers and worker keeps the hand-off invariant |
| LinearWorkQueue.EmptyAnswerMeansDrained | common/concurrent/LinearWorker.h:28-44 | the drain loop ends only on a queue whose every stored value has been taken |
| LinearWorkQueue.RunOwes | common/concurrent/LinearWorker.h:28-44 | stored and taken values only grow, and each finished round has emptied its queue of what was stored before it |
| Bits.RemapIsInvolution | thirdparty/include/atomic_queue/atomic_queue.h:59-69 | the index shuffle is its own inverse and stays inside every power-of-two range that holds both bit groups |
| Bits.RemapSwapsGroups | thirdparty/include/atomic_queue/atomic_queue.h:59-69 | bit by bit, the three-xor trick exchanges the two groups and leaves the rest |
| Bits.RoundUpIsLeast | thirdparty/include/atomic_queue/atomic_queue.h:106-118 | for 1 <= a <= 2^31 the or-smearing form is 2^k for the least k with a <= 2^k |
| MutexRing.MutexRing.TryPush | thirdparty/include/atomic_queue/atomic_queue_mutex.h:48-56 | succeeds exactly when fewer than size elements are queued, and appends the element, whatever the wrapped counters |
| MutexRing.MutexRing.TryPop | thirdparty/include/atomic_queue/atomic_queue_mutex.h:58-66 | succeeds exactly when the queue is not empty, and removes its first element; otherwise the element is untouched |
| MutexRing.MutexRing.WasEmpty | thirdparty/include/atomic_queue/atomic_queue_mutex.h:68-70 | what was_empty answers for every fill |
| MutexRing.MutexRing.WasFull | thirdparty/include/atomic_queue/atomic_queue_mutex.h:72-74 | what was_full answers for every fill |
| MutexRing.TemplateIsBuildable | thirdparty/include/atomic_queue/atomic_queue.h:41-46 | every requested size from 1 to 2^31, rounded up, and its shuffle bits make a ring that survives the wrap |
| MutexRing.MutexRing.Rounded | thirdparty/include/atomic_queue/atomic_queue_mutex.h:31-40 | such a ring starts empty and holds at least the requested size |
| MutexRing.WindowsDifferIff | thirdparty/include/atomic_queue/atomic_queue_mutex.h:33-56 | successive counters have different slots across the wrap if and only if the size divides 2^32 |
| MutexRing.ViewPush | thirdparty/include/atomic_queue/atomic_queue_mutex.h:48-56 | writing the slot of head and advancing it is appending to the queue in the ring |
| MutexRing.ViewPop | thirdparty/include/atomic_queue/atomic_queue_mutex.h:58-66 | advancing tail is removing the first element |
| MutexRing.TestsAreExact | thirdparty/include/atomic_queue/atomic_queue_mutex.h:68-74 | was_empty and was_full are right at every fill if and only if the size is below 2^31 |
| Varint.SerializeVarint | thirdparty/include/ylt/struct_pack/varint.hpp:248-275 | the shift loop writes the base-128 varint of the number |
| Varint.CalculateVarintSize | thirdparty/include/ylt/struct_pack/varint.hpp:212-227 | the counting loop gives the length of that varint |
| Varint.DeserializeVarint | thirdparty/include/ylt/struct_pack/varint.hpp:277-301 | the loop decoder equals the definition on every byte string: value modulo 2^64, bytes consumed, truncated or too long |
| Varint.PbDecodeVarint | thirdparty/include/ylt/struct_pb/struct_pb_impl.hpp:48-102 | struct_pb's one-byte, unrolled and short-buffer paths equal the same definition, so all decoders agree |
| Varint.PbUnrolled | thirdparty/include/ylt/struct_pb/struct_pb_impl.hpp:58-102 | the unrolled path, with its one-bit tenth group, equals the definition |
| Varint.PbSlow | thirdparty/include/ylt/struct_pb/struct_pb_impl.hpp:58-102 | the short-buffer path equals the definition |
| Varint.DecodeEncoded | thirdparty/include/ylt/struct_pack/varint.hpp:248-301 | every uint64 survives encode then decode, whatever follows it |
| Varint.DecodePrefix | thirdparty/include/ylt/struct_pack/varint.hpp:277-301 | every proper prefix of a varint decodes as truncated |
| Varint.EncodedSize | thirdparty/include/ylt/struct_pack/varint.hpp:212-227 | a varint takes at most k bytes if and only if the number is below 128^k |
| Zigzag.EncodeMeaning | thirdparty/include/ylt/struct_pack/varint.hpp:189-210 | the bit trick computes the zigzag of the "Signed Integers" section of the Protocol Buffers Encoding guide: 2t for t >= 0, -2t-1 otherwise |
| Zigzag.SintRoundTrip | thirdparty/include/ylt/struct_pack/varint.hpp:302-323 | every intN survives zigzag in N bits, the 64-bit varint, and decoding in 64 bits with narrowing |
| FastVarint.GroupRoundTrip | thirdparty/include/ylt/struct_pack/unpacker.hpp:646-751 | groups of any length and mix of 4/8-byte signed and unsigned members round-trip into a zeroed target |
| FastVarint.GroupReads | thirdparty/include/ylt/struct_pack/unpacker.hpp:646-689 | reading a group into any target: its non-zero members arrive, the others keep what the target had |
| FastVarint.GroupRoundTripIff | thirdparty/include/ylt/struct_pack/unpacker.hpp:646-689 | so the group comes back if and only if the target is zero wherever the group is |
| FastVarint.InvalidGroupIff | thirdparty/include/ylt/struct_pack/unpacker.hpp:706-751 | bytes are refused as invalid if and only if they announce eight bytes for a group without a 64-bit member |
| FastVarint.WidthHolds | thirdparty/include/ylt/struct_pack/calculate_size.hpp:279-358 | the shared 1/2/4/8-byte width, cut to the member's size, holds every member |
| FastVarint.WidthIsLeast | thirdparty/include/ylt/struct_pack/calculate_size.hpp:279-358 | the shared width is the least: 1, 2, 4 or 8 bytes are at least the width chosen if and only if they hold every non-zero member, cut to its own size |
| FastVarint.EightBytesNeed64Bits | thirdparty/include/ylt/struct_pack/packer.hpp:226-233 | eight bytes are chosen only if some member is 64 bits wide, so the branch marked unreachable is |
| FastVarint.SizeIsExact | thirdparty/include/ylt/struct_pack/calculate_size.hpp:359-384 | the computed size is the number of bytes emitted |
| FastVarint.SerializeFastVarint | thirdparty/include/ylt/struct_pack/packer.hpp:157-239 | the in-place bitset and the member loop write the group's bytes |
| FastVarint.DeserializeFastVarint | thirdparty/include/ylt/struct_pack/unpacker.hpp:646-751 | the reading loop equals the group decoder on every byte string and target, an unsigned member being zeroed before its read |
| FastVarint.GroupCut | thirdparty/include/ylt/struct_pack/unpacker.hpp:646-751 | every strict prefix of a group is refused for want of bytes |
| FastVarint.GroupLeavesSuffix | thirdparty/include/ylt/struct_pack/unpacker.hpp:646-751 | on any bytes a group leaves a suffix and a target of the same length |
| FastVarint.BitsetUpdate | thirdparty/include/ylt/struct_pack/packer.hpp:157-193 | setting a bit in the byte array is setting it in the list of flags |
| StructPackCodec.PassRoundTrip | thirdparty/include/ylt/struct_pack/unpacker.hpp:753-1238 | for every type and value each pass of the unpacker turns the target the earlier passes left into the next one and stops at the end of what the same pass of the packer wrote |
| StructPackSize.SizeExact | thirdparty/include/ylt/struct_pack/calculate_size.hpp:39-188 | for every type and value the bytes of all passes are at most the sizer's total plus the length width for each container, and exactly that if and only if no set compatible member reaches another compatible member |
| StructPackSize.BaseSize | thirdparty/include/ylt/struct_pack/packer.hpp:250-252 | the same of the base pass alone: exact if and only if no compatible member is reached |
| StructPackSize.MaxSizeFits | thirdparty/include/ylt/struct_pack/calculate_size.hpp:419-441 | a width that holds the sizer's longest container holds every container length |
| StructPackSize.MaxSizeIff | thirdparty/include/ylt/struct_pack/calculate_size.hpp:419-441 | the sizer's longest container is below 256^w if and only if every container length fits w bytes |
| StructPack.NeededSizeIsExact | thirdparty/include/ylt/struct_pack/calculate_size.hpp:406-473 | get_needed_size is never less than the number of bytes written, over all length widths, with and without metainfo, type literal and data length, and equal to it if and only if no set compatible member reaches another one |
| StructPack.WidthIsLeast | thirdparty/include/ylt/struct_pack/calculate_size.hpp:419-441 | the length width is the least: 1, 2, 4 or 8 bytes are at least the width chosen if and only if they hold the length of every container |
| StructPack.MetainfoIff | thirdparty/include/ylt/struct_pack/calculate_size.hpp:416-445 | metainfo is sent, and announced in the first word, if and only if the type has a compatible member, its literal is sent or some container has 256 elements or more; otherwise the header is the type id alone |
| StructPack.DataLenIsLeast | thirdparty/include/ylt/struct_pack/calculate_size.hpp:454-467 | a data length is sent only for types with a compatible member, in the least of 2, 4 and 8 bytes that count the whole buffer with the length itself |
| StructPack.HeadRoundTrip | thirdparty/include/ylt/struct_pack/packer.hpp:100-139 | reading the header gives back the width code, the data length and the payload, with or without a type literal |
| StructPack.HeadAcceptedIff | thirdparty/include/ylt/struct_pack/unpacker.hpp:566-612 | what a reader of another type makes of a header: accepted if and only if the hash is the same and a literal that was sent begins with its own; another hash is invalid_buffer, another literal hash_conflict |
| StructPack.ForeignTypeRefused | thirdparty/include/ylt/struct_pack/unpacker.hpp:541-612 | a buffer of another type is refused and leaves the target alone |
| StructPackCodec.FastRoundTrip | thirdparty/include/ylt/struct_pack/packer.hpp:437-446 | a fast varint group as the first member of a struct reads back and ends where it was written |
| StructPack.RoundTrip | thirdparty/include/ylt/struct_pack/unpacker.hpp:100-157 | for every type and value, deserialising the serialised bytes into a default target succeeds, reads exactly what was written and gives the value back, compatible members inside set compatible members null |
| StructPack.RoundTripIff | thirdparty/include/ylt/struct_pack/unpacker.hpp:1239-1263 | so the value itself comes back if and only if none of those is set |
| StructPack.NestedLosesMember | thirdparty/include/ylt/struct_pack/type_calculate.hpp:549-560 | for every struct with a compatible struct that has a compatible member: fewer bytes are written than asked for, and the inner member is lost if set |
| StructPackModel.SentIff | thirdparty/include/ylt/struct_pack/packer.hpp:458-467 | what is sent is the value if and only if no compatible member inside a set one is set |
| StructPackVersions.OlderReadsNewer | thirdparty/include/ylt/struct_pack/packer.hpp:60-78 | bytes of a newer type decode under the type as of version k, inside compatible members too, to what is sent of the members that type has |
| StructPackVersions.NewerReadsOlder | thirdparty/include/ylt/struct_pack/unpacker.hpp:282-345 | bytes of the version-k type decode under the newer type with every newer member null; where the sizer counted more than was written, over zeros in the difference, and otherwise whatever follows is left unread |
| StructPackVersions.UnpaddedReadIff | thirdparty/include/ylt/struct_pack/unpacker.hpp:1239-1263 | with nothing after the written bytes, the newer reader of a struct that gains a member accepts if and only if the sizer counted no more than was written |
| StructPackVersions.ErasePack | thirdparty/include/ylt/struct_pack/packer.hpp:241-457 | every pass both versions know writes the same bytes |
| StructPackVersions.OlderPassesFirst | thirdparty/include/ylt/struct_pack/type_calculate.hpp:494-513 | the older type's passes are the first passes of the newer one |
| StructPackVersions.PastEnd | thirdparty/include/ylt/struct_pack/unpacker.hpp:1239-1263 | past the data length, or over zeros up to it, a version pass leaves every target alone and marks every failure as legal |
| StructPackVersions.EmbedInverse | thirdparty/include/ylt/struct_pack/unpacker.hpp:1239-1263 | an older value in the newer type sets no newer member, and erasing undoes it |
| StructPackVersions.KeptMemberReadIff | thirdparty/include/ylt/struct_pack/packer.hpp:60-78 | for all member types and versions a (new) and b (kept): the older reader gets the kept member of every value out of the newer writer's buffer if and only if a > b |
| StructPackVersions.SmallerVersionMisread | thirdparty/include/ylt/struct_pack/packer.hpp:60-66 | with a <= b, a null new member and a set kept one, it does not |
| StructPackSafety.TruncationRefused | thirdparty/include/ylt/struct_pack/unpacker.hpp:541-634 | for types of scalars, strings, vectors and structs every strict prefix of a serialised buffer is rejected with no_buffer_space |
| StructPackSafety.DeserializeStays | thirdparty/include/ylt/struct_pack/unpacker.hpp:45-75 | on any bytes and any type the reader ends inside its buffer, on a suffix of it |
| StructPackSafety.ReaderStays | thirdparty/include/ylt/struct_pack/unpacker.hpp:753-1263 | the same for every pass over every type and target |
| StructPackSafety.CutAtLast | thirdparty/include/ylt/struct_pack/unpacker.hpp:1137-1263 | a strict prefix of a buffer of plain members followed by an optional, a variant or a compatible member is refused if and only if nothing of the last member is left |
| StructPackSafety.CutBeforeFollowers | thirdparty/include/ylt/struct_pack/unpacker.hpp:1137-1182 | with plain members behind the optional or variant, a strict prefix is refused wherever the optional is whole or no more of it is left than those members need at least |
| StructPackSafety.CutScalarOptional | thirdparty/include/ylt/struct_pack/unpacker.hpp:1137-1160 | that bound is tight: an optional scalar cut in front of a scalar of k bytes is accepted if and only if k bytes of it are left |
| StructPackSafety.HeadCut | thirdparty/include/ylt/struct_pack/unpacker.hpp:541-612 | every strict prefix of every header is refused with no_buffer_space |
| StructPackSafety.PlainQuiet | thirdparty/include/ylt/struct_pack/unpacker.hpp:876-1123 | a version pass over a plain type changes neither target nor position |
| StructPackTyping.UnpackTyped | thirdparty/include/ylt/struct_pack/unpacker.hpp:753-1263 | for every type, pass, target and byte string, what unpacking leaves in the target is again a value of the type, also when it fails half way |
| StructPackTyping.DeserializeTyped | thirdparty/include/ylt/struct_pack/unpacker.hpp:100-157 | the same of whole buffers |
| StructPackTyping.PassesOn | thirdparty/include/ylt/struct_pack/unpacker.hpp:100-157 | so whatever was read, from any bytes, serialises again and reads back as what is sent of it |
| StructPackTyping.UnknownAlternativeIff | thirdparty/include/ylt/struct_pack/unpacker.hpp:1163-1176 | a variant buffer is invalid, and leaves the target alone, if and only if its index names no alternative |
| StructPackTyping.OverlongVarintIff | thirdparty/include/ylt/struct_pack/unpacker.hpp:792-799 | a varint buffer is invalid if and only if its bytes run on for too long, and short if and only if they end too early |
| StructPackReuse.BaseReads | thirdparty/include/ylt/struct_pack/unpacker.hpp:753-1182 | for every type, value and used target, the base pass lays the value over what the target held and takes exactly the packed bytes |
| StructPackReuse.ReuseIff | thirdparty/include/ylt/struct_pack/unpacker.hpp:953-955 | a buffer read into a used target gives its value back if and only if the target is empty, absent or zero wherever the value is |
| StructPackReuse.EmptyListKeepsOld | thirdparty/include/ylt/struct_pack/unpacker.hpp:953-955 | an empty container read into a used one leaves the old elements |
| StructPackMachine.CalculateOneSize | thirdparty/include/ylt/struct_pack/calculate_size.hpp:39-182 | the accumulating sizer computes the size function |
| StructPackMachine.Packer.SerializeOne | thirdparty/include/ylt/struct_pack/packer.hpp:241-457 | appends exactly the pass's bytes of the value |
| StructPackMachine.Packer.Serialize | thirdparty/include/ylt/struct_pack/packer.hpp:68-78 | appends header, base pass and version passes |
| StructPackMachine.Unpacker.Read | thirdparty/include/ylt/struct_pack/unpacker.hpp:45-75 | reads n bytes and advances, or fails and stays |
| StructPackMachine.Unpacker.DeserializeOne | thirdparty/include/ylt/struct_pack/unpacker.hpp:753-1263 | code, target and cursor are those of the unpacking function, for any input |
| StructPackMachine.Unpacker.Deserialize | thirdparty/include/ylt/struct_pack/unpacker.hpp:100-157 | header, base pass and version passes end in the state of the deserialising function |
| StructPackMachine.Unpacker.ReadMetainfo | thirdparty/include/ylt/struct_pack/unpacker.hpp:541-612 | the header read from the buffer, with every failure |
| StructPackMachine.Unpacker.ReadAnnounced | thirdparty/include/ylt/struct_pack/unpacker.hpp:516-539 | the data length and the type literal that the metainfo byte announces; a literal that differs is a hash conflict |
| StructPackMachine.Unpacker.ReadGroup | thirdparty/include/ylt/struct_pack/unpacker.hpp:705-751 | a fast varint group read at the cursor |
| SectorPosting.StepKeepsIff | common/game/SectorPostingManager.cpp:3-79 | an operation keeps "listened or owned implies related" if and only if it does not displace an owner that listens to that sector |
| SectorPosting.RunKeeps | common/game/SectorPostingManager.cpp:3-79 | every run of such operations keeps it |
| SectorPosting.UnsetAfterRun | common/game/SectorPostingManager.cpp:51-65 | after such a run UnsetAll leaves the id listening nowhere, owning nothing and unlinked, and no other id changed |
| SectorPosting.NoDualRunIsSafe | common/game/SectorPostingManager.cpp:3-14 | runs in which no id both owns and listens are such runs |
| SectorPosting.StepKeepsExactIff | common/game/SectorPostingManager.cpp:3-79 | an operation keeps "related = owned" of an id if and only if it does not start the id listening to a sector it does not own |
| SectorPosting.OwnershipIsExact | common/game/SectorPostingManager.cpp:75-79 | related sectors are the owned ones all along a run if and only if every step is of that kind |
| SectorPosting.OwnerOnlyIsExact | common/game/SectorPostingManager.cpp:75-79 | in particular for an id that never listens |
| SectorPosting.DisplacedListenerStays | common/game/SectorPostingManager.cpp:7-8 | a displaced owner that listens is still listening after UnsetAll |
| SectorPosting.FormerListenerStaysRelated | common/game/SectorPostingManager.cpp:43-49 | a session that listened to a sector it does not own and stopped keeps it related |
| SectorPosting.SectorPostingManager.AllocateSector | common/game/SectorPostingManager.cpp:3-14 | new owner and both back links, with every pointer still valid |
| SectorPosting.SectorPostingManager.AddSectorListener | common/game/SectorPostingManager.cpp:32-41 | listener and back link |
| SectorPosting.SectorPostingManager.RemoveSectorListener | common/game/SectorPostingManager.cpp:43-49 | the loop removes the id from every related sector and from no other |
| SectorPosting.SectorPostingManager.UnsetAll | common/game/SectorPostingManager.cpp:51-65 | the loop releases every related sector, the session is cleared and unlinked, and its pending packets are dropped |
| SectorPosting.SectorPostingManager.LinkSession | common/game/SectorPostingManager.cpp:16-19 | the session pointer is set, nothing else changed |
| SectorPosting.SectorPostingManager.GetOwnershipSectors | common/game/SectorPostingManager.cpp:75-79 | the id's related sectors |
| SectorPosting.SectorPostingManager.UnlinkSession | common/game/SectorPostingManager.cpp:21-30 | the session pointer is null afterwards, nothing else changed; the session whose pending packets are dropped is named |
| SectorPosting.SectorPostingManager.GetSectorOwnerSession | common/game/SectorPostingManager.cpp:67-73 | the owner's session, inserting default entries as operator[] does |
| Agency.EveryRunIsRight | agency/agency/PacketHandler.cpp:97-144 | in every run of accepts, spawn answers, promotions, closes and server traffic: an entered client listens to exactly its SectorId, its object maps back to it, and a client not entered or closed listens nowhere |
| Agency.EveryBroadcastIsRight | agency/agency/AgencyWorker.cpp:30-57 | in every run a client is linked, to the session it was accepted with, exactly while it is open and its accept found a session for the initial sector's owner; a sector broadcast reaches such a client if and only if it has entered and that is its sector, and no other client |
| Agency.RunCaches | agency/agency/PacketHandler.cpp:188-263 | after every run a sector's cache holds exactly the objects whose latest message brought a fixture, with that fixture |
| Agency.StepKeeps | agency/agency/PacketHandler.cpp:221-263 | every event keeps the client invariant |
| Agency.SpawnIff | agency/agency/PacketHandler.cpp:97-144 | a spawn answer keeps it if and only if it brings a new object for a client without one, or repeats the client's own object and sector |
| Agency.SecondSpawnBreaks | agency/agency/PacketHandler.cpp:97-144 | after an accept and a spawn answer, a second answer with another sector leaves the client listening to both |
| Agency.PromotionCopies | agency/agency/PacketHandler.cpp:234-245 | a promotion that goes through caches the object in the target, keeps it in the origin and leaves every other cached object alone |
| Agency.PromotionAssertsIff | agency/agency/PacketHandler.cpp:247-251 | after any allowed run, the assertion of a promotion that moves a client holds if and only if its origin is where the object's latest spawn answer or passed promotion took it |
| Agency.RepeatedOriginTrips | agency/agency/PacketHandler.cpp:234-251 | the origin keeps the object cached, so a second promotion from it passes every guard and trips the assertion |
| Agency.RepeatedOriginReachable | agency/agency/PacketHandler.cpp:221-263 | a run from the start that does so |
| Agency.AgencyWorker.OnClientAccepted | agency/agency/AgencyWorker.cpp:30-57 | the next id, linked and asked to spawn exactly if the initial sector's owner has a session |
| Agency.AgencyWorker.OnPlaySpawnCharacterRes | agency/agency/PacketHandler.cpp:97-144 | cache, user data, object map and listener, or a remove request for a user that left |
| Agency.AgencyWorker.OnPlayPromoteObjectReq | agency/agency/PacketHandler.cpp:221-263 | the moved client stops listening everywhere and listens to the target; refused without sessions or a cached object; whether the assertion on the client's sector holds |
| Agency.AgencyWorker.OnClientClosed | agency/agency/AgencyWorker.cpp:59-86 | index, object map and session are clean, and an entered client's character is asked to be removed |
| Agency.AgencyWorker.OnPlayObjectCreatePush | agency/agency/PacketHandler.cpp:200-210 | the cache takes the object with the current time, the invariant is kept |
| Agency.AgencyWorker.OnPlayObjectMovePush | agency/agency/PacketHandler.cpp:188-198 | the cached fixture, or a default one, takes position, direction and time and keeps the rest |
| Agency.AgencyWorker.OnPlayObjectRemovePush | agency/agency/PacketHandler.cpp:212-219 | the cache loses the object |
| SequentialBuffer.SequentialBuffer.PushBack | common/memory/SequentialBuffer.h:35-53 | the contents gain the element at the end, through growth |
| SequentialBuffer.SequentialBuffer.RecvFromStream | common/memory/SequentialBuffer.h:55-63 | the contents gain what the stream gave |
| SequentialBuffer.SequentialBuffer.EraseFront | common/memory/SequentialBuffer.h:65-79 | the contents lose their first elements, through a rewind that does not overlap |
| SequentialBuffer.SequentialBuffer.At | common/memory/SequentialBuffer.h:111-115 | indexing the contents |
| SequentialBuffer.CopiesArePaidFor | common/memory/SequentialBuffer.h:35-79 | over any run the elements copied by growth and rewind are at most twice those pushed plus those erased |
| SequentialBuffer.SafeCapacities | common/memory/SequentialBuffer.h:25-33 | no run writes out of bounds or overlaps a copy if and only if the initial capacity is even and at least 2 |
| SequentialBuffer.StepKeeps | common/memory/SequentialBuffer.h:35-79 | every operation keeps bounds and the potential that pays for copies |
| SequentialBuffer.IndexGuard | common/memory/SequentialBuffer.h:111-115 | the assertion in operator[] keeps indices inside the contents if and only if the start index is zero |
| SequentialBuffer.GuardFailsReachably | common/memory/SequentialBuffer.h:111-115 | from every safe capacity a run reaches a start index where the assertion admits an index past the contents |
| SectorGeometry.PhaseOutsideIff | common/game/coordinate/SectorSystem.cpp:68-98 | no solid fixture classified Gray or Leave has phase Max if and only if the band is at most a third of the sector both ways |
| SectorGeometry.PhasePointsToSide | common/game/coordinate/Base.h:201-217 | PhaseForce of the phase is the pair of thirds the position lies in |
| SectorGeometry.PhaseLeavesInner | common/game/coordinate/SectorSystem.cpp:4-11 | a fixture outside the inner box is beyond one of its edges and its phase points over that edge |
| SectorGeometry.RunKeepsMatched | common/game/coordinate/SectorSystem.cpp:100-161 | in every run of updates, creations, removals and steering, location is In exactly when phase is Max |
| SectorGeometry.UpdateKeepsMatched | common/game/coordinate/SectorSystem.cpp:100-161 | one update of one fixture keeps that, and what the callback hears has it too |
| SectorGeometry.LocationMeans | common/game/coordinate/SectorSystem.cpp:68-79 | In: the fixture shares a point with the sector less its band; Gray: with the sector but not with that; Leave: with neither |
| SectorGeometry.UpdateFollows | common/game/coordinate/SectorSystem.cpp:100-161 | one update: while the fixture observes, has left or was transformed less than 1000 ms ago it only moves; otherwise its location becomes the one of its new position, and the callback hears exactly a changed location, or a changed phase other than Max of one that stays Gray |
| SectorGeometry.UpdateClassifies | common/game/coordinate/SectorSystem.cpp:100-161 | so after such an update the location tells what the fixture, where it now stands, touches |
| SectorGeometry.MoveIsNearest | common/game/coordinate/Fixture.h:93-113 | a fixture no larger than the world goes where its displacement takes it, or to the nearest place inside the world |
| SectorGeometry.MoveSplits | common/game/coordinate/Fixture.h:81-113 | two moves in a row are the one move of their whole time, at the edges of the world too: movement does not depend on the tick |
| SectorGeometry.MoveTowards | common/game/coordinate/Fixture.h:86-91 | a move never goes against or across the fixture's direction |
| SectorGeometry.ForceIsPerSecond | common/game/coordinate/Fixture.h:81-113 | a move over 1000 ms that stays inside the world displaces the fixture by its force along each axis of its direction |
| SectorGeometry.OverlapMeansSharedPoint | common/game/coordinate/Fixture.h:8-20 | proper rectangles overlap if and only if they share a point |
| SectorGeometry.MoveStaysInside | common/game/coordinate/Fixture.h:81-113 | a moving fixture ends inside the world if and only if it is no larger than the world |
| SectorGeometry.SectorSystem.Update | common/game/coordinate/SectorSystem.cpp:100-161 | every fixture takes its step whatever the order, and the callback hears of exactly the fixtures with a change |
| SectorGeometry.SectorSystem.CreateFixture | common/game/coordinate/SectorSystem.cpp:31-46 | a new fixture In with phase Max, or a duplicate id and no change |
| SectorGeometry.SectorSystem.CreateNextFixture | common/game/coordinate/SectorSystem.cpp:26-29 | the same with the sector's next id |
| SectorGeometry.SectorSystem.CopyFixture | common/game/coordinate/SectorSystem.cpp:13-24 | a copy of the given fixture, or a duplicate id and no change |
| SectorGeometry.SectorSystem.RemoveFixture | common/game/coordinate/SectorSystem.cpp:48-57 | the fixture is gone, the others stay |
| SectorGeometry.SectorSystem.UpdateFixture | common/game/coordinate/SectorSystem.cpp:102-159 | the loop body computes the fixture's step and what the callback hears |
| WeightedRoundRobin.EveryPeriodIsFair | thirdparty/include/ylt/coro_io/channel.hpp:98-115 | each period of sum(w)/gcd(w) selections from the start holds host i exactly w_i/gcd(w) times |
| WeightedRoundRobin.PeriodTimes | thirdparty/include/ylt/coro_io/channel.hpp:98-115 | a full sweep of levels selects each host once for each unit of its weight |
| WeightedRoundRobin.SomeHitAhead | thirdparty/include/ylt/coro_io/channel.hpp:98-115 | a visit that selects always lies ahead |
| WeightedRoundRobin.HitMeansWeight | thirdparty/include/ylt/coro_io/channel.hpp:111-113 | the comparison of the loop selects a host from the level on that its weight reaches |
| WeightedRoundRobin.NextVisit | thirdparty/include/ylt/coro_io/channel.hpp:100-109 | how the position and the current weight change from one visit to the next |
| WeightedRoundRobin.GetMaxWeightGcd | thirdparty/include/ylt/coro_io/channel.hpp:117-126 | the loop computes the greatest common divisor: its divisors are the common divisors of the weights |
| WeightedRoundRobin.GetMaxWeight | thirdparty/include/ylt/coro_io/channel.hpp:128-130 | the largest weight |
| WeightedRoundRobin.LoadBalancer.SelectHost | thirdparty/include/ylt/coro_io/channel.hpp:98-115 | the loop ends, at the next selecting visit of the walk; -1 only when all weights are zero |
| WeightedRoundRobin.LoadBalancer.Select | thirdparty/include/ylt/coro_io/channel.hpp:86-95 | the log gains the selected host; with all weights zero the hosts take turns |
| PacketThrottler.StreamPreserved | common/engine/PacketThrottler.h:29-90 | for any run of posts and flushes where allocation succeeds and each packet fits a buffer: bytes sent plus the pending buffer are the posted frames in order, every buffer is whole frames within capacity, no null buffer is sent, and parsing recovers the packets |
| PacketThrottler.StepKeeps | common/engine/PacketThrottler.h:29-118 | every post, flush and clean-up keeps the buffers whole frames, whether or not allocation succeeds; a clean-up drops exactly the unsent packets |
| PacketThrottler.ImmediateIsSent | common/engine/PacketThrottler.h:61-88 | an Immediate post leaves nothing pending, and no entry unless the packet overflows a fresh buffer; a packet that is taken is the end of the last buffer sent |
| PacketThrottler.ThrottledWaits | common/engine/PacketThrottler.h:61-90 | a Throttle post that is taken stays pending; only what has no room beside it is sent |
| PacketThrottler.FlushIsComplete | common/engine/PacketThrottler.h:112-118 | a flush sends what is pending and leaves no entry |
| PacketThrottler.ParseFrames | common/engine/protocol/Protocol.h:24-43 | length-prefix parsing of concatenated frames gives the packets back |
| PacketThrottler.ParseFrame | common/engine/SocketSession.h:64-80 | a frame followed by anything parses to its packet and the rest |
| PacketThrottler.PacketRoundTrip | common/engine/protocol/Protocol.h:9-43 | a value serialised into a frame of the needed size, with anything in what the packer left unwritten, is parsed and deserialised to what is sent of it |
| PacketThrottler.NoNullSendIff | common/engine/PacketThrottler.h:29-118 | a run sends no null buffer if and only if no post that is left without a buffer is Immediate or has a flush as the next event |
| PacketThrottler.NullSendStep | common/engine/PacketThrottler.h:29-118 | for every state and event, exactly when a null buffer is sent and exactly when one is left behind |
| PacketThrottler.AnyStreamIsFrames | common/engine/PacketThrottler.h:29-118 | whatever allocations fail and whatever is too large, bytes sent plus pending are the frames of the accepted packets: without clean-ups, of the posts that were taken, in order |
| PacketThrottler.SerializePacket | common/engine/protocol/Protocol.h:24-43 | the frame if it fits the room, its size in any case |
| PacketThrottler.PacketThrottler.PostPacket | common/engine/PacketThrottler.h:61-90 | the session's new buffer, sent buffers and history; no other session changes |
| PacketThrottler.PacketThrottler.ForceFlushPacket | common/engine/PacketThrottler.h:112-118 | the loop sends every session's buffer and leaves no entry |
| PacketThrottler.PacketThrottler.CleanUp | common/engine/PacketThrottler.h:92-102 | the session's pending buffer is released unsent |
| IntrusivePtr.CounterIsExact | common/memory/IntrusivePtr.h:35-83 | in every run of constructing, copying, moving and releasing without self copy, the counter is the number of handles to the object, and the deleter has run once for each lifetime that is over and not for one going on |
| IntrusivePtr.StepKeepsIff | common/memory/IntrusivePtr.h:50-83 | an operation keeps that if and only if it is not a copy of a handle that holds something to itself |
| IntrusivePtr.SelfCopyLeaks | common/memory/IntrusivePtr.h:50-65 | a self copy empties the handle and leaves the counter one too high |
| IntrusivePtr.SelfMoveReleases | common/memory/IntrusivePtr.h:67-83 | a self move is a release |
| IntrusivePtr.Handle.CopyFrom | common/memory/IntrusivePtr.h:50-65 | counters, deleter calls and pointers after a copy assignment, with and without aliasing |
| IntrusivePtr.Handle.MoveFrom | common/memory/IntrusivePtr.h:67-83 | the same for a move assignment |
| IntrusivePtr.Handle.Release | common/memory/IntrusivePtr.h:107-121 | the counter drops by one, the deleter runs exactly if it was one, the handle is empty |
| IntrusivePtr.Program.Copy | common/memory/IntrusivePtr.h:50-65 | on the handles and objects of a program, copy assignment is the step the run theorems are about, aliasing and self copy included |
| IntrusivePtr.Program.Move | common/memory/IntrusivePtr.h:67-83 | the same for move assignment |
| IntrusivePtr.Program.Release | common/memory/IntrusivePtr.h:107-121 | the same for Release |
| IntrusivePtr.Program.Make | common/memory/IntrusivePtr.h:35-38 | the same for construction from a raw pointer |
| IntrusivePtr.RefCounter.Retain | common/memory/RefCounter.h:32-35 | the counter goes up and its new value is returned |
| IntrusivePtr.RefCounter.Release | common/memory/RefCounter.h:42-45 | the counter goes down and its new value is returned |

## Left out

- Weak memory: the step systems assume sequential consistency, apart from counter loads that may return earlier values.
- Counter age: a counter that is compared was loaded less than 2^31 tickets ago, and a compare-and-swap succeeds before the counter has run through 2^32; both are enabling conditions of the steps, since 32-bit counters alias beyond them.
- Ticket order: no first-in-first-out order is claimed for several producers; a later pusher on the same slot may store first.
- Unconditional `push`/`pop`, `AtomicQueue2` and the single-producer single-consumer branches of the queue: another protocol.
- Worker hooks: time keeping and `UpdateContext` bodies; the hand-over of a batch is one step. LinearWorkQueue takes rings below 2^31 slots.
- Type machinery of struct_pack: reflection, MD5 type hashes and type literals (constants of the type here; compatible members take part in neither, so types of different versions share them), padding, trivially copied structs, big-endian branches, configurations without the hash head.
- Fixed arrays, maps, sets, pairs, expected, unique_ptr and derived classes in struct_pack: like the modelled kinds or compile-time dispatch. A struct with fast varint coding is a struct whose first member is the group of its integers, in wire order.
- Version compatibility takes compatible types as struct members, which is where a version can add one, and StructPackVersions.KeptMemberReadIff a kept type whose default value fits a buffer. Where a cut leaves more of an optional or variant than the plain members behind it need, those members read what is left of it; only the bound, and its tightness for scalars, is stated.
- StructPackReuse.ReuseIff: types without compatible members; what version passes leave in a used target is only known to be a value of the type (StructPackTyping.UnpackTyped).
- Buffers of 2^64 bytes and more in struct_pack, frames of 2^32 bytes and more in the framing.
- Broadcasts are the recipients of `SectorPosting.Recipients`, not packets; ids and user data inside cached fixtures are not kept.
- `_active_sessions` holds the clients; spawn answers name clients, and server ids stay below client ids, as the id counters are set up. OnUserMoveReq, OnPlayMoveCharacterRes and OnPlayObjectListPush only read the index or write the cache.
- SequentialBuffer: 32-bit overflow of the capacity, and memory that `malloc` cannot give.
- Floating-point rounding in the geometry; fixtures are values of the sector's map, not shared pointers, and callbacks only record what they hear.
- Socket buffers of PacketThrottler are byte sequences, not memory; TryFlushPacket only adds a timer.
- IntrusivePtr: interleavings of handle operations on several threads, counters beyond 2^31, `_UnsafeRetain`, `Cast`, `RetainN` and `ReleaseN`.
- IOCP, sockets, coroutine I/O, the supervisor, `World`, logging, configuration and utilities: plumbing around the modelled parts.
