# Verified models of the SDK's core components

This project models ten components of a C systems SDK and proves what each is for. Every component is its own
module or small group of modules; code that changes state step by step is a class or a method with loops, proved
against a specification, and shared-memory protocols are state machines over their atomic steps, proved over every
schedule. Check it with `dafny verify dfyconfig.toml`.

| component | files | main results |
|---|---|---|
| Robin Hood hash map | `HashMap.dfy` | refines a finite map over every sequence of operations; displacement, backward shift and rebuild keep the invariant that makes every probe end |
| lock-free FIFO | `LockFreeQueue.dfy`, `LockFreeCalls.dfy` | first in first out by the values of the calls, linearization points, what every call has done when it ends, a null result means the queue was empty during the call |
| multi-producer ring | `MpscRing.dfy`, `MpscCalls.dfy` | assertions, ticket order and draining hold in all runs exactly for the capacities that survive the wrap of the ticket counter |
| bit codec | `BitString.dfy`, `BitStream.dfy`, `StructCodec.dfy`, `Acceptance.dfy` | the bytes are the concatenated field bits; parsing them is the inverse; exactly which generated messages are accepted, lengths, payload and checksum included; exactly which messages of any origin are accepted, and which alterations a checksum keeps out |
| checksums | `Crc.dfy`, `CrcTables.dfy` | table form equals bit-by-bit division; every change within one byte (CRC-8) or four (CRC-32) is detected |
| pool allocator | `PoolLists.dfy`, `PoolTiles.dfy`, `PoolThreads.dfy`, `Pool.dfy` | tiling, boundary tags, both lists and totals are kept; blocks never overlap; exactly when allocation fails; freeing all leaves one chunk |
| framing | `Framing.dfy` | any partial writes and any read chunks deliver the same packets; end to end over every run |
| fair scheduler | `RingList.dfy`, `RoundRobin.dfy`, `LowDeficits.dfy`, `VisitOrder.dfy`, `Drr.dfy` | conservation, termination, exact active list and its order, evenness within a packet, deficit accounts, exactly when every request is met, and what is left otherwise |
| indexed heap | `PriorityQueue.dfy` | heap order, stored positions and exact contents; draining sorts |
| state machine, shift | `StateMachine.dfy`, `Bitset.dfy` | nearest-ancestor dispatch and settled states over every run; the multi-byte shift divides by a power of two |

`Common.dfy`, `Wrappers.dfy` and `Arithmetic.dfy` hold shared definitions.

Conventions:

- Callbacks and the environment are parameters: `hash` and `compare` (through a key function), allocation outcomes,
  addresses returned by malloc, results of read and write, guards and entry actions, the packet handler, and the
  schedule of threads.
- Integers are unbounded where the source's width does not matter. Modelled as in the source: the 48-bit clipped
  hash, the wrapping ticket counter of the ring, the 32-bit length header, the sign extension and the container
  truncation of the codec, and all arithmetic of the checksums. Subtractions of unsigned values are on naturals, so
  each is proved not to underflow.
- The load factors 0.60, 0.75 and 0.10 are the integer floors of the products.
- Atomic steps are sequentially consistent; queue nodes are not reused.
- Priorities of the heap are compared by any strict weak order. The scheduler's packet size is positive and it has
  at most 65536 users, so that a user's SAC is its index.
- The pool allocator is taken with a maximum of at least twice the memory size, so that every memory has the same
  size, and with memories larger than a chunk's overhead. Pointers given to `Free` are ones handed out.

What the proofs show about the code that a reader might not expect:

- A 32-bit fixed field with a number of at least 2^31 is rejected on input, whatever is sent, because the shifted
  byte is a signed int (`FixedAcceptsItself`, `FixedRejectsAll`), so a descriptor with such a field accepts no message
  (`FixedNeverAccepted`). A 32-bit enumeration looks up the same promoted
  number: with names for 32-bit numbers only it rejects such values too, with a 64-bit range around the promoted
  number it accepts them (`NamedAccepts`, `NamedAcceptsItself`).
- A message whose fields do not fill whole bytes loses its last bits in `gen_pdu` and is never accepted
  (`SendAndReceive`, `CutRunsOver`, `FourBits`, `CutString`).
- An altered message is kept out by its checksum unless its pdu length is altered, since the receiver then looks for
  the checksum elsewhere; one altered byte can make it accept a part of the message (`AlteredPduNotAccepted`,
  `LengthAltered`).
- The ring fails its assertions, reorders objects and loses track of one after 2^64 enqueues unless its capacity
  divides 2^64 (`NeverFaults`, `OrderedForever`, `DrainsForever`). A power of two, which include/ld_aqueue.h:40 asks
  for and the code does not check, meets that condition.
- The scheduler can leave requests unserved although the budget is not used up (`Stranded`, `SecondIsLeft`). Every
  request is met exactly when the budget covers them all and the user served last, the last one on the list among
  those with the most visits, is served whole: it asks for more than the threshold at its last visit, and its last
  packet is a whole one or above the threshold (`MetExactly`). With a deficit below a packet the last visit asks for
  just that last packet (`LowVisits`), so it is served whole exactly if its last packet exceeds the threshold
  (`LowServedWhole`, `LongestDecides`), and what is left otherwise can be computed from the requests (`LowLeftover`).
- A state machine whose entry action fails stays in its state although exit and transition actions have run
  (`Fsm.HandleEvent`).
- A state without transitions of its own ignores events that its ancestors would handle (`AncestorsAsked`,
  `ChildIgnores`).
- Strings are written and read without checking the end of the buffer; the model names these outcomes `Overflow`
  and `Overrun`.

## Model

| member | source | states |
|---|---|---|
| `HashMap.RoundCapacity` | src/ld_hashmap.c:90-98 | the sizing loop yields the least power of two that is at least 16 and at least the requested capacity |
| `HashMap.HashMap.constructor` | src/ld_hashmap.c:79-137 | a new map is valid, stands for the empty finite map and has the rounded capacity and its thresholds |
| `HashMap.HashMap.Lookup` | src/ld_hashmap.c:305-317 | the probe loop ends, at the slot of the key if it is stored and at an empty slot if not |
| `HashMap.HashMap.GetWithHash` | src/ld_hashmap.c:302-318 | returns what the finite map holds for the key |
| `HashMap.HashMap.Get` | src/ld_hashmap.c:322-324 | returns what the finite map holds for the key |
| `HashMap.HashMap.Resize` | src/ld_hashmap.c:201-240 | a rebuild keeps the finite map and the invariants at exactly the new size; a failed allocation changes nothing |
| `HashMap.HashMap.Reinsert` | src/ld_hashmap.c:211-226 | the rebuild's inner loop, which compares no keys, adds exactly the moved item |
| `HashMap.HashMap.SetWithHash` | src/ld_hashmap.c:245-289 | updates the finite map at the item's key and returns the old item; the table grows, by the growth power, exactly when it is full; out of memory exactly when that fails, and then nothing changes |
| `HashMap.HashMap.Set` | src/ld_hashmap.c:295-297 | as SetWithHash with the map's own hash |
| `HashMap.HashMap.Insert` | src/ld_hashmap.c:257-288 | the displacing probe loop updates the finite map although it swaps before it has seen the whole run |
| `HashMap.HashMap.DeleteWithHash` | src/ld_hashmap.c:341-380 | removes the key from the finite map and returns its item; the table is halved exactly when an item went, it is above its capacity and a tenth full or less; a failed shrink is harmless |
| `HashMap.HashMap.Delete` | src/ld_hashmap.c:384-386 | as DeleteWithHash with the map's own hash |
| `HashMap.HashMap.Remove` | src/ld_hashmap.c:357-369 | the backward shift restores the invariant and removes one key only |
| `HashMap.HashMap.Clear` | src/ld_hashmap.c:182-199 | leaves the empty map, with the capacity rule of both modes, a new table exactly if one is needed and can be allocated, and the load limit 0.75 |
| `HashMap.ShiftsAdd` | src/ld_hashmap.c:251-251 | shifting by the growth power multiplies by as many twos |
| `HashMap.RoundsToItself` | src/ld_hashmap.c:90-98 | a power of two from 16 on is its own rounding |
| `HashMap.HashMap.Iter` | src/ld_hashmap.c:442-451 | the next occupied slot at or after the cursor, or that there is none |
| `HashMap.HashMap.Items` | src/ld_hashmap.c:442-451 | iterating from 0 to the end meets every stored item exactly once |
| `HashMap.Run` | src/ld_hashmap.c:182-386 | over every sequence of get, set, delete, clear and count, with any allocation failures, the outputs are those of a plain finite map |
| `RobinHood.NotFurther` | src/ld_hashmap.c:280-287 | once the probe meets a slot poorer than the carried entry, its key cannot be stored there or later: displacing early never leaves two slots with one key |
| `RobinHood.RiseBound` | src/ld_hashmap.c:280-287 | dib rises along the ring by at most the distance walked |
| `RobinHood.EmptyIsBeyond` | src/ld_hashmap.c:307-317 | no empty slot lies between a stored item and its home, so a lookup may stop at the first empty slot |
| `RobinHood.SeekingNext` | src/ld_hashmap.c:305-317 | one turn of a lookup: at an empty slot the key is absent, at an item with the key it is the key's slot, and otherwise the search goes on without passing the key's slot and comes nearer to an empty one |
| `RobinHood.DibBound` | src/ld_hashmap.c:24-24 | no dib exceeds the number of items, so its 16 bits suffice below 65536 items |
| `RobinHood.EmptySlot` | src/ld_hashmap.c:131-132 | the load limit leaves an empty slot, at which every unbounded probe loop ends |
| `RobinHood.SwapKeeps` | src/ld_hashmap.c:280-287 | swapping with a poorer slot keeps the table and carries the evicted entry on |
| `RobinHood.ProbeStores` | src/ld_hashmap.c:267-271 | an empty slot is met only when the key is absent; storing there completes the update |
| `RobinHood.ProbeMatches` | src/ld_hashmap.c:272-279 | a key match is met only at the key's own slot and before anything was displaced |
| `RobinHood.ShiftKeeps` | src/ld_hashmap.c:358-368 | one step of the backward shift moves the hole on and leaves the finite map alone |
| `RobinHood.HoleCloses` | src/ld_hashmap.c:362-365 | where the shift stops, the table is a Robin Hood table again |
| `LockFreeQueue.StepKeeps` | src/ld_mqueue.c:123-161 | every atomic step of every thread keeps the invariant of list, values, free chain and threads |
| `LockFreeQueue.InvHolds` | src/ld_mqueue.c:227-263 | the invariant holds in every state that any schedule of any number of threads reaches |
| `LockFreeCalls.Fifo` | src/ld_mqueue.c:123-161 | the values taken out and those still in the queue are, in order, the values of the enqueue calls that linked their nodes, each call once; the first of them went to as many distinct dequeue calls |
| `LockFreeQueue.TailFollows` | src/ld_mqueue.c:240-246 | tail is never behind head and at most one node short of the end, and no null pointer is followed |
| `LockFreeCalls.Linearizes` | src/ld_mqueue.c:123-248 | over every schedule the abstract queue changes only when a thread links in an enqueue call that has not linked yet, by the value of that call at its end, and when a thread moves the head in a dequeue call that has not moved it yet, by its front value |
| `LockFreeCalls.CallEnds` | src/ld_mqueue.c:123-248 | an enqueue ends only after its own value was linked; a dequeue returns the value its own move of the head took out, or null without having taken anything |
| `LockFreeCalls.CallsHold` | src/ld_mqueue.c:227-248 | over every schedule a thread in an enqueue carries a node with the value of its call until it has linked it, once |
| `LockFreeCalls.StartedIsLatest` | src/ld_mqueue.c:227-248 | the call a thread is in is its latest step at which it was idle |
| `LockFreeCalls.SwingsMove` | src/ld_mqueue.c:134-141 | after a swing of the tail or of the end of the free chain it is no longer at the node that was seen, whoever moved it |
| `LockFreeCalls.LagsAreHeld` | src/ld_mqueue.c:240-263 | tail or free chain lag behind only while the thread that linked the last node is about to swing them |
| `LockFreeQueue.ReturnsRemoved` | src/ld_mqueue.c:146-158 | a dequeue returns the value removed by its own head swap |
| `LockFreeQueue.NullReadMeansEmpty` | src/ld_mqueue.c:125-139 | next is read as null only while the queue is empty |
| `LockFreeQueue.NullWasEmpty` | src/ld_mqueue.c:135-139 | a dequeue returns null only if the queue was empty at an instant during the call |
| `LockFreeQueue.FreeChainIsRetired` | src/ld_mqueue.c:253-263 | the free chain holds only nodes that head has passed, each once |
| `MpscRing.InvHolds` | src/ld_aqueue.c:39-73 | every schedule keeps the invariant of counters, slots and tickets, in runs of any length that take at most 2^64 tickets, and in every run if the capacity divides 2^64 |
| `MpscRing.AssertionsHold` | src/ld_aqueue.c:49-52 | in every run that takes at most 2^64 tickets, or in any run if the capacity divides 2^64, no assertion of the source fails: a slot is empty whenever a producer checks or stores, and at most capacity tickets are outstanding |
| `MpscRing.InTicketOrder` | src/ld_aqueue.c:56-73 | in the same runs the consumer returns each stored object exactly once, in ticket order |
| `MpscRing.RejectsWhenFull` | src/ld_aqueue.c:41-46 | in every run, of any length and capacity, an enqueue backs off exactly when reservations, back-offs and unreleased tickets reach the capacity |
| `MpscRing.NothingStuck` | src/ld_aqueue.c:58-67 | in the same runs as AssertionsHold, with no producer between ticket and store, a dequeue finds the oldest stored object |
| `MpscRing.DrainsForever` | src/ld_aqueue.c:49-51 | nothing is ever stranded, in runs of any length, if and only if the capacity divides 2^64 |
| `MpscRing.WrapStrands` | src/ld_aqueue.c:49-51 | otherwise, after 2^64 objects, one is stored where the consumer does not look |
| `MpscRing.NeverFaults` | src/ld_aqueue.c:49-52 | no assertion fails in any run if and only if the capacity divides 2^64 |
| `MpscRing.WrapFaults` | src/ld_aqueue.c:49-52 | otherwise a run exists in which a producer meets an occupied slot |
| `MpscRing.OrderedForever` | src/ld_aqueue.c:49-68 | for a capacity below 2^64, objects come out in ticket order in every run if and only if the capacity divides 2^64 |
| `MpscRing.WrapReorders` | src/ld_aqueue.c:49-68 | otherwise a run exists in which a later ticket is returned first |
| `MpscRing.TallyHolds` | src/ld_aqueue.c:39-73 | in every run, wraps included, the count is that of reservations, back-offs and unreleased tickets |
| `MpscCalls.TicketsHoldObjects` | src/ld_aqueue.c:39-55 | in every run, wraps included, a ticket holds the object of the call that took it, once stored, and each call takes at most one |
| `MpscCalls.CallEnds` | src/ld_aqueue.c:39-55 | an enqueue ends by backing off without a ticket, or with its object stored at its ticket and in the slot the ticket counter named |
| `MpscCalls.GivenByCalls` | src/ld_aqueue.c:56-73 | in runs that take at most 2^64 tickets, or any run if the capacity divides 2^64, the consumer gets the objects of the calls in the order in which they took their tickets |
| `BitStream.AppendBits` | src/ld_santilizer.c:6-16 | adds the w bits of n at any bit position of a buffer that is zero there, and nothing else |
| `BitStream.DetachBits` | src/ld_santilizer.c:18-38 | reads the 1 to 32 bits at any bit position; a 32-bit value from 2^31 on comes back sign-extended |
| `BitStream.AppendStr` | src/ld_santilizer.c:40-47 | adds bytes at any bit position |
| `BitStream.DetachStr` | src/ld_santilizer.c:49-61 | reads bytes at any bit position |
| `Descriptors.EncIsConcatenation` | src/ld_santilizer.c:380-490 | the number the encoder builds is the MSB-first concatenation of all field bits, pads being zero |
| `Descriptors.EncField` | src/ld_santilizer.c:380-490 | each field's bits are found at their place in the encoding |
| `Descriptors.EncSet` | src/ld_santilizer.c:546-557 | filling in a field that was written as zero adds its number at its place and moves nothing |
| `StructOut.SizeofStruct` | src/ld_santilizer.c:612-618 | the declared sizes of all fields, pads and strings included, rounded up to bytes |
| `StructOut.DeclaredIsLength` | src/ld_santilizer.c:612-618 | without pads and strings the declared size is the size of the encoding |
| `StructOut.BytesLen` | src/ld_utils.c:41-46 | the member's container is never narrower than its field |
| `StructOut.PbStream.OutStruct` | src/ld_santilizer.c:363-529 | fails, with the cursor as it was, for lack of declared room or an unnamed enumeration value, overflows if a field runs past the buffer, whichever comes first; otherwise the buffer holds the encoding of all fields with the sdu length filled in |
| `StructOut.SduIsPayload` | src/ld_santilizer.c:494-512 | the sdu length is the number of whole bytes in the fields behind the last pad |
| `StructOut.AllEmitted` | src/ld_santilizer.c:371-490 | everything is written if and only if all enumeration values have names and the encoding fits the buffer |
| `StructOut.PbStream.ClosePdu` | src/ld_santilizer.c:554-557 | the pdu length becomes the number of bytes written |
| `StructOut.PbStream.CloseCheck` | src/ld_santilizer.c:558-576 | the checksum of the bytes before its place is stored, most significant byte first |
| `StructIn.InStruct` | src/ld_santilizer.c:120-328 | field by field parsing gives the reading of the message that AcceptsExactly characterises, rejections and unchecked overruns included |
| `Acceptance.AcceptsExactly` | src/ld_santilizer.c:120-294 | every message whatsoever is accepted with given members if and only if it has the declared size, each field's bits stand at its place, every checksum is that of the bytes before it, fixed and named fields pass on the promoted number, and strings have the length asked for |
| `Acceptance.FieldExactly` | src/ld_santilizer.c:139-294 | one field is taken with a given member if and only if its bits bear it out |
| `PduRoundTrip.ParseEncoded` | src/ld_santilizer.c:136-225 | reading a buffer that holds an encoding, of any alignment and with or without room behind it, returns its values with the cursor at the end of the encoding, if the fields pass their checks |
| `PduRoundTrip.RoundTrip` | src/ld_santilizer.c:136-225 | in_struct undoes the encoding for every field list and all values in range, exactly when the message has the declared size |
| `PduRoundTrip.WriteAndRead` | src/ld_santilizer.c:120-529 | out_struct followed by in_struct on the buffer it filled gives all values back, for any room and alignment |
| `PduRoundTrip.CutRunsOver` | src/ld_santilizer.c:628-639 | a message that lost the bits of an unfinished last byte is rejected or read past its end, never accepted |
| `PduRoundTrip.FixedAcceptsItself` | src/ld_santilizer.c:18-38 | a fixed field accepts the number it sends if and only if it is narrower than 32 bits or the number is below 2^31 |
| `PduRoundTrip.FixedRejectsAll` | src/ld_santilizer.c:31-31 | a 32-bit fixed field of at least 2^31 accepts no bits at all |
| `PduRoundTrip.FixedNeverAccepted` | src/ld_santilizer.c:136-225 | a descriptor with such a field accepts no message, whatever comes before or after the field |
| `PduRoundTrip.NamedAccepts` | src/ld_santilizer.c:184-189 | an enumeration accepts a number on input if and only if the promoted number has a name |
| `PduRoundTrip.NamedAcceptsItself` | src/ld_santilizer.c:184-189 | with names for 32-bit numbers only, an enumeration accepts what it sends if and only if it is narrower than 32 bits or the number is below 2^31 |
| `PduRoundTrip.GenPdu` | src/ld_santilizer.c:620-630 | the message spells the field bits with true lengths and checksum, less the bits of an unfinished last byte; it is empty when out_struct fails, and nothing is promised after an overflow |
| `PduRoundTrip.PduRoundTrips` | src/ld_santilizer.c:226-294 | what in_struct makes of a message with lengths, payload and checksum filled in: every member back, a rejection, or an overrun, by alignment and declared size |
| `PduRoundTrip.SendAndReceive` | src/ld_santilizer.c:620-648 | gen_pdu followed by in_struct is accepted if and only if the fields fill whole bytes, as many as are declared; then the checksum test passes, the lengths are true and the payload is recovered exactly |
| `PduRoundTrip.FourBits` | src/ld_santilizer.c:620-648 | one 4-bit field gives an empty message that is rejected |
| `PduRoundTrip.CutString` | src/ld_santilizer.c:620-648 | a 4-bit field before a one-byte string gives a message of one byte that is read past its end |
| `Corruption.AlteredPduNotAccepted` | src/ld_santilizer.c:226-248 | a message of gen_pdu altered before its checksum in one byte (CRC-8) or within four (CRC-32) is not accepted, as long as no pdu length field before the checksum is altered |
| `Corruption.AlteredNotAccepted` | src/ld_santilizer.c:226-248 | the same for any message whose fields up to the checksum bear out their members |
| `Corruption.SumChanges` | src/ld_santilizer.c:226-248 | byte sequences that differ within as many bytes as a checksum has never share it |
| `Corruption.SamePlaces` | src/ld_santilizer.c:249-294 | with the same pdu length fields the fields of two messages stand at the same places |
| `Corruption.LengthAltered` | src/ld_santilizer.c:226-294 | with the pdu length altered a message can be accepted: the receiver takes its first four bytes for the whole |
| `CrcTables.Crc8TableIsRounds` | include/ld_crc.h:12-45 | every entry of the CRC-8 table is eight rounds of the shift register |
| `CrcTables.Crc32TableIsRounds` | include/ld_crc.h:48-81 | every entry of the CRC-32 table is eight rounds of the reflected shift register |
| `Crc.Crc8` | src/ld_crc.c:12-23 | for messages of any length the table form is bit-by-bit division |
| `Crc.Crc32` | src/ld_crc.c:29-39 | for messages of any length the table form is bit-by-bit division, complemented |
| `Crc.KnownSums` | src/ld_crc.c:12-39 | the sums of an empty message and of messages of one bit are the final complement and the two polynomials |
| `Crc.DivideByte` | src/ld_crc.c:34-36 | eight rounds need dividing the low byte only, which is what the table holds |
| `Crc.OneByteDetected` | src/ld_crc.c:12-23 | messages of equal length that differ in one byte never share a CRC-8 |
| `Crc.FourBytesDetected` | src/ld_crc.c:29-39 | messages of equal length that differ only within four consecutive bytes never share a CRC-32 |
| `Crc.BytesAtOnce` | src/ld_crc.c:34-36 | feeding up to four bytes one by one is dividing the register with the whole word added |
| `Pool.Memory.constructor` | src/ld_alloc.c:17-28 | a new memory is one free chunk that fills it |
| `Pool.Memory.FirstFit` | src/ld_alloc.c:197-246 | the walk of the free list stops at the first chunk that fits, or none does |
| `Pool.Memory.Split` | src/ld_alloc.c:203-228 | cutting a chunk keeps tiling, end pointers and the ban on adjacent free chunks; the rest takes the chunk's place in the free list |
| `Pool.Memory.TakeWhole` | src/ld_alloc.c:230-234 | a chunk too small to cut is taken whole |
| `Pool.Memory.AllocIn` | src/ld_alloc.c:192-246 | first fit in one memory: none exactly if no free chunk fits; else a chunk of the rounded size, or whole if at most the overhead would remain, with all other blocks untouched; the free list loses the chunk or has the rest in its place |
| `Pool.RejectedHasNoFit` | src/ld_alloc.c:192-195 | the quick reject by totals never hides a chunk that fits |
| `Pool.Memory.WalkBack` | src/ld_alloc.c:122-127 | walking back by end pointers ends at the first chunk of the free run |
| `Pool.Memory.Absorb` | src/ld_alloc.c:129-136 | merging forward restores every invariant, no two adjacent free chunks among them, and the free list loses exactly the chunks merged |
| `Pool.Memory.Release` | src/ld_alloc.c:284-293 | giving a chunk back removes exactly it from the chunks handed out and its size from alloc_mem; it goes to the front of the free list, less the chunks that were merged |
| `Pool.MemPool.constructor` | src/ld_alloc.c:143-176 | the pool starts with one memory and nothing handed out |
| `Pool.MemPool.Extend` | src/ld_alloc.c:95-107 | a new memory of the full size has room for the request and moves no block |
| `Pool.MemPool.Alloc` | src/ld_alloc.c:178-274 | fails exactly for a bad size, or when no free chunk fits and the limit or malloc refuses an extension; hands out exactly one more block: the first chunk that fits in the first memory with one, cut if the rest is worth a chunk, or the start of the one memory added |
| `Pool.MemPool.FindMemory` | src/ld_alloc.c:109-119 | the memory whose range holds the pointer |
| `Pool.MemPool.Free` | src/ld_alloc.c:276-294 | exactly the freed block is no longer handed out; 1 for a null pointer |
| `Pool.MemPool.NoOverlap` | src/ld_alloc.c:178-274 | blocks handed out anywhere in the pool never overlap |
| `Pool.MemPool.AllGivenBack` | src/ld_alloc.c:276-294 | after everything was freed, in any order, each memory is one free chunk of its full size |
| `PoolTiles.FreeFits` | src/ld_alloc.c:192-195 | a free chunk and all allocated bytes together fit in the memory |
| `PoolLists.DeleteKeeps` | src/ld_alloc.c:38-47 | unlinking takes one member out of the doubly linked list and changes nothing else |
| `PoolLists.InsertKeeps` | src/ld_alloc.c:30-36 | linking puts a member at the front |
| `PoolLists.AdoptKeeps` | src/ld_alloc.c:210-221 | the rest of a cut chunk takes its place in the list |
| `Pool.OverheadCovered` | src/ld_alloc.c:290-291 | alloc_prog_mem never drops below zero |
| `Frames.StreamReceived` | src/ld_net.c:322-399 | cutting the byte stream of any packets gives back what the handler is to see |
| `Frames.Continues` | src/ld_net.c:322-399 | more bytes take up where the receiver stood; after an error they change nothing |
| `Frames.EndToEnd` | src/ld_net.c:308-589 | at any moment the handler has seen a first part of the expected packets, and all of them once every byte has arrived |
| `Frames.WillingHandler` | src/ld_net.c:342-353 | with a handler that refuses nothing: the packets of 1 to 8192 bytes in order, up to the first larger one |
| `Frames.LengthIsNumeral` | src/ld_net.c:329-335 | the length is the base 256 numeral of the four bytes, most significant first |
| `Frames.HeaderIsNumeral` | src/ld_net.c:543-545 | so is the header of a packet's length |
| `Framing.Sender.Send` | src/ld_net.c:288-306 | a queued packet is the last of the packets to be sent |
| `Framing.Sender.Push` | src/ld_net.c:495-530 | a partial write moves exactly the bytes taken to the wire |
| `Framing.Sender.WritePacket` | src/ld_net.c:491-589 | whatever the writes do, wire and pending bytes together are the framed packets in order; OK if and only if all are on the wire, an error if and only if the last result used was a write of nothing or a broken connection, else AGAIN exactly when the last result would block or took a part, or none was left; each result before it took a whole buffer or was an interrupt; what is left is stated |
| `Framing.AllTaken` | src/ld_net.c:491-589 | if there are as many results as buffers and each takes the whole buffer it is offered, all is written with one call each |
| `Framing.Sender.AllPending` | src/ld_net.c:491-589 | the buffers to be written are, joined, the bytes that are not on the wire |
| `Framing.Receiver.RemoveFront` | src/ld_net.c:308-320 | drops the first bytes of the buffer |
| `Framing.Receiver.Process` | src/ld_net.c:322-399 | the two-phase loop reaches the state that cutting the whole stream at once describes |
| `Framing.Receiver.ReadPacket` | src/ld_net.c:401-481 | whatever chunks are read, the packets delivered depend only on the bytes seen; an error exactly if the stream was refused or the last result used was a close or a read error; otherwise the loop reads on until nothing is there or a signal comes after data |
| `Framing.Delivery` | src/ld_net.c:308-589 | the packets delivered are a prefix of those expected from the packets queued, and equal once all bytes are seen |
| `Framing.Run` | src/ld_net.c:308-589 | for every run of queueing, partial writes and reads of any amounts the receiver delivers a prefix of the expected packets |
| `RingList.RingList.PushFront` | src/ld_rbuffer.c:16-39 | puts an element in front, refused exactly when full; the ring stays linked both ways |
| `RingList.RingList.PushBack` | src/ld_rbuffer.c:42-65 | puts an element at the back, refused exactly when full |
| `RingList.RingList.Pop` | src/ld_rbuffer.c:68-90 | takes the front element, none exactly when empty |
| `RingList.RingList.CheckExist` | src/ld_rbuffer.c:128-139 | one walk round the ring finds whether a matching element exists |
| `Drr.Scheduler.ReqUpdate` | src/ld_drr.c:33-35 | adds to one user's request only |
| `Drr.Scheduler.Activate` | src/ld_drr.c:58-69 | afterwards the active list is exactly the users that ask, each once; users that joined start without a deficit; the total is the sum of requests |
| `Drr.OneVisit` | src/ld_drr.c:80-115 | one visit grants something, never more than budget, request or deficit, as long as a packet can be given; whole packets but for the end of request or budget; with a budget that covers the request exactly what round robin grants |
| `Drr.OnePacket` | src/ld_drr.c:83-114 | the branches of the inner loop grant the least of packet, budget and request, and a fragment exactly when the budget is the least |
| `Drr.Scheduler.Visit` | src/ld_drr.c:74-121 | one turn of the outer loop keeps conservation, the active list, the accounts and evenness, and lowers the budget |
| `Drr.Scheduler.ResourceAlloc` | src/ld_drr.c:55-127 | terminates; each grant plus remaining request is the original request; grants total at most the budget and leave at most the threshold of what could be granted; the active list is exactly the users that still ask, a user with a fragment first, the others in the rotation of the activated list that starts at the one due next; users that are done lose their deficit; with a budget that covers the requests exactly what round robin leaves is left; every request is met if and only if Meets holds of the activated list, requests and deficits; even grants if deficits started low |
| `VisitOrder.VisitsNext` | src/ld_drr.c:74-121 | a visit keeps the order: the list is a rotation of the activated list without the users that are done, those before the rotation's start had one visit more, and deficit and grant account for the visits |
| `VisitOrder.FragmentFirst` | src/ld_drr.c:117-120 | a user that was given a fragment and still asks is first |
| `Drr.JoinersRise` | src/ld_drr.c:58-69 | users that join follow those on the list by rising SAC |
| `Drr.MetExactly` | src/ld_drr.c:71-121 | every request is met if and only if nothing is asked for, or the budget covers all requests and the user served last is served whole |
| `RoundRobin.LastServedDecides` | src/ld_drr.c:74-121 | round robin leaves nothing if and only if the user served last asks for more than the threshold at its last visit and its last packet is whole or above the threshold |
| `RoundRobin.LastServedStays` | src/ld_drr.c:74-121 | a visit that grants its quota does not change who is served last: the last on the list of those with the most visits |
| `RoundRobin.LowVisits` | src/ld_drr.c:80-115 | with a deficit below a packet a request of r bytes takes ceil(r / packet) visits, and the last asks for what the others leave |
| `LowDeficits.LowServedWhole` | src/ld_drr.c:80-115 | with a deficit below a packet a user is served whole if and only if its last packet exceeds the threshold |
| `LowDeficits.LongestDecides` | src/ld_drr.c:71-115 | with low deficits nothing is left if and only if the last packet exceeds the threshold of the user that asks for the most packets, the last such one on the list |
| `LowDeficits.LowLeftover` | src/ld_drr.c:71-115 | with low deficits what round robin leaves is the largest residue not above the threshold, a residue being what a number of rounds and some visits of the next one leave of the requests, a packet per visit |
| `LowDeficits.LowTurn` | src/ld_drr.c:76-115 | a visit with a low deficit takes a packet or the rest from the request and leaves all deficits low |
| `LowDeficits.LeftIs` | src/ld_drr.c:76-115 | k such visits leave r - k * packet of r bytes, or nothing if that is negative |
| `RoundRobin.QuotaIs` | src/ld_drr.c:80-97 | what a deficit allows in a visit is the whole packets in it, or the request |
| `RoundRobin.GetsOrStops` | src/ld_drr.c:82-115 | a visit grants its quota, or the threshold stops it with the last packet still to come |
| `Drr.FollowsStep` | src/ld_drr.c:80-121 | with a budget that covers the requests each visit grants what round robin grants |
| `Drr.SecondIsLeft` | src/ld_drr.c:74-121 | of two requests of at most a packet, the one served second is left unserved exactly if it is within the threshold |
| `Drr.RisingServed` | src/ld_drr.c:74-121 | round robin keeps grants rising along the list by at most a packet |
| `Drr.FixedPacket` | src/ld_drr.c:80-94 | with one packet size, deficit plus bytes granted since activation is that size times the visits |
| `Drr.AtExit` | src/ld_drr.c:71-74 | for any deficits: at the end at most the threshold is left of budget or of requests, and with a scarce budget or a zero threshold every request is met or at most the threshold left of the budget; otherwise that holds exactly if what round robin leaves is nothing or, with the spare budget, within the threshold |
| `Drr.AtExitLow` | src/ld_drr.c:71-115 | if deficits start low: what is left is the largest residue not above the threshold, and every request is met or at most the threshold left of the budget if and only if the budget is scarce or that residue is nothing or, with the spare budget, within the threshold |
| `Drr.Stranded` | src/ld_drr.c:71-74 | a request no larger than the threshold stays unserved however large the budget |
| `Drr.RoomForOne` | src/ld_drr.c:63-66 | the active list never overflows |
| `PriorityQueue.PQueue.BubbleUp` | src/ld_pqueue.c:88-102 | restores heap order and stored positions, elements unchanged |
| `PriorityQueue.PQueue.MaxChild` | src/ld_pqueue.c:105-116 | 0 exactly for a leaf, else a child that no child ranks above |
| `PriorityQueue.PQueue.PercolateDown` | src/ld_pqueue.c:119-133 | restores heap order and stored positions, elements unchanged |
| `PriorityQueue.PQueue.Insert` | src/ld_pqueue.c:136-164 | adds exactly one element, or nothing when growing fails; heap order is kept also for an element that is there already, and stored positions if it is not |
| `PriorityQueue.PQueue.SetPriority` | src/ld_pqueue.c:167-175 | giving an element outside the queue a priority changes nothing else |
| `PriorityQueue.PQueue.ChangePriority` | src/ld_pqueue.c:167-187 | changes one priority and keeps heap, positions and elements |
| `PriorityQueue.PQueue.Remove` | src/ld_pqueue.c:190-204 | removes exactly one element, also the last |
| `PriorityQueue.PQueue.Pop` | src/ld_pqueue.c:219-243 | removes an element that none ranks above; none exactly when empty |
| `PriorityQueue.PQueue.Peek` | src/ld_pqueue.c:253-267 | an element that none ranks above, or that there is none |
| `PriorityQueue.PQueue.Flush` | src/ld_pqueue.c:206-217 | draining yields all elements, highest rank first |
| `HeapOrder.RootIsTop` | src/ld_pqueue.c:235-237 | nothing in a heap ranks above its root |
| `HeapOrder.UpStep` | src/ld_pqueue.c:93-98 | one step up keeps the order everywhere but at the moved element |
| `HeapOrder.DownStep` | src/ld_pqueue.c:124-129 | one step down keeps the order everywhere but at the moved element |
| `HeapOrder.Replaced` | src/ld_pqueue.c:176-199 | an element put in a slot, or given a new priority, has to move in the one direction the comparison tells |
| `StateMachine.GetTransition` | src/ld_statemachine.c:126-145 | the first enabled transition of a state, or that none is |
| `StateMachine.FindHandler` | src/ld_statemachine.c:35-45 | the nearest ancestor with an enabled transition, or that none has |
| `StateMachine.HandlerIsUnique` | src/ld_statemachine.c:35-45 | state and event determine handler and transition |
| `StateMachine.StepDown` | src/ld_statemachine.c:55-59 | entry states are followed to a state that has none |
| `StateMachine.ResolvesToEnd` | src/ld_statemachine.c:55-59 | a state resolves to a target if and only if the target is in its chain of entry states and has none itself |
| `StateMachine.Fsm.GoToErrorState` | src/ld_statemachine.c:117-124 | the error state becomes current and its entry action runs |
| `StateMachine.Fsm.HandleEvent` | src/ld_statemachine.c:22-100 | the complete effect of an event: state, previous state, actions run, as ActionsRun spells them out, and result, as ResultTells does |
| `StateMachine.ActionsRun` | src/ld_statemachine.c:61-86 | an event of a state with transitions runs exactly: exit action first and entry action last if the state changes and has them, the transition's action once between them, nothing else; to the same state the transition's action only; in the error branch the error state's entry action |
| `StateMachine.ResultTells` | src/ld_statemachine.c:22-100 | the result tells whether the machine stayed, looped, failed or moved, and whether it can move on |
| `StateMachine.AncestorsAsked` | src/ld_statemachine.c:32-45 | the nearest ancestor with an enabled transition fires it if the current state has transitions of its own; if it has none, nothing happens |
| `StateMachine.ChildIgnores` | src/ld_statemachine.c:32-33 | a parent's transition is taken for a child with a transition for another event, and not for a child without transitions |
| `StateMachine.ActionsOnChangeOnly` | src/ld_statemachine.c:61-86 | exit and entry actions run only if the resolved state differs |
| `StateMachine.RunSettled` | src/ld_statemachine.c:22-100 | over every run the current state is the initial state, the error state or one without an entry state |
| `StateMachine.Drive` | src/ld_statemachine.c:22-100 | feeding a machine any events is such a run |
| `Bitset.SwitchEndian` | src/ld_bitset.c:143-148 | writes the bytes reversed and nothing beyond them |
| `Bitset.ShiftOnce` | src/ld_bitset.c:159-167 | one pass halves the number, rounded down |
| `Bitset.BitRightShift` | src/ld_bitset.c:150-172 | the result's little-endian value is the source's divided by 2^shift, rounded down; nothing is written on an error |
| `Bitset.ShrIsDivision` | src/ld_bitset.c:159-167 | shifting right k times is dividing by 2^k |

## Left out

- Lock-free FIFO: time-based reclamation, the single-consumer dequeue that frees at once, the size counter, failed allocation of a node, and weak memory orders.
- Ring: null objects and weak memory orders.
- Hash map: the bodies of the hash functions, element destructors, `hashmap_probe`, `hashmap_scan` and printing; `dib` is unbounded, with `DibBound` showing when 16 bits suffice; an allocation failure inside the constructor.
- Codec: sub-streams passed to `in_struct` and `out_struct`, time and MAC fields, fields wider than 32 bits, `copy_pbs`, buffers that are not zero or values that do not fit, where ORed writes mix, and what a write past the buffer does to memory.
- Codec: the descriptor tables of clients, such as the IPv6 and TCP headers of src/ipv6_parse.c, which are instances of the general theorem.
- Pool allocator: smaller or unequal extensions, clearing and destroying the pool, thread locks, requests within 47 bytes of 2^64 whose rounded size would wrap, and clients that write outside their blocks.
- Framing: sockets, epoll, connection set-up and expiry, packets of 2^32 bytes or more, failed buffer allocation, and a receiver that goes on after an error; results of read and write are a finite list, so endless interruption is not a run.
- AtExit: if a deficit reaches a packet, what is left is given by the round robin of `Leftover` and not in closed form; when it is nothing is decided for all deficits by `MetExactly`.
- GenPdu: after an overflow the content of the message is not modelled, since the source goes on past its 4096-byte buffer.
- Scheduler: overflow of 64-bit totals, and users beyond the 16 bits of a SAC.
- Heap: mutexes, condition variables and blocking; elements and their priorities are values and maps instead of client memory; the drain of `pqueue_flush` has no callback. Removal and change of priority are for elements that are in the queue once, since only one position is stored.
- State machine: null arguments, and machines whose parent or entry chains are cyclic.
- Bit sets: the allocation bitmap around the shift.
- The remaining files of the SDK: timers, sliding window, the unindexed heap with its connection expiry, logging, configuration, databases, JSON, base64, dashboards, threads and pipes.
