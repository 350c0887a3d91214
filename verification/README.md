# Verified model of the RTL812xLucy data path

RTL812xLucy is a macOS driver for Realtek 2.5, 5 and 10 Gigabit Ethernet chips. This project
models the parts of it that have state worth reasoning about and proves, for all inputs and all
runs, what they are for. Everything is Dafny 4.11; `dafny verify dfyconfig.toml` checks it all.

## What is modelled

**Transmit.** `TxModel` is the transmit ring as a protocol of three parties: the output thread,
the completion handler and the chip. Each step is one access to shared memory, or a group of
accesses the other parties cannot see half done (the words of a descriptor before its own bit is
set, the memory-descriptor bookkeeping of a mapping or an unmapping); any interleaving is a run.
`TxSafety`, `TxSteps`, `TxContent` and `TxTheorems` carry the invariant through every step;
`TxFrames` says what a descriptor sequence means; `TxPromises` states what follows for every
reachable state. `TxMemory`, `TxRanges` and `TxReach` add the ring of memory descriptors and the
shared array of address ranges of the mapped mode, with mappings that succeed, fail half way or are
of no use, and `TxStarved` what follows when that ring runs out. `TxCalls` shows that whole calls
are runs, and `TxDriver` is the code on its own arrays, proved against those calls. `TxMap`
and `TxMapper` are the cutting of a packet into page segments and its mapping, down to bytes.

**Receive.** `RxPool` is the lock-free buffer pool under every interleaving of one `getPacket`
caller with the refill thread; `RxBuffers` is the pool as an object with real linked packets.
`RxFrames` is the reassembly of frames from buffers and the removal of the frame check sequence.
`RxRing` is the receive ring with its lazy remapping, 16 buffers at a time, and its clear, both of
which the mapper may refuse, interleaved with the chip, which knows buffers by their device addresses
only. `RxPromises` states what follows for every run, `RxReceive` joins ring, reassembly and pool,
and `RxDriver` is the code on its arrays.

**The rest.** `Firmware` and `FirmwareHalting` are the firmware format check, the static check, the
interpreter, their soundness and the termination of counted polling loops. `Eeprom` and
`EepromDriver` are the serial EEPROM, chip and bit-banging master. `Checksum` is the pseudo-header
sum for segmentation offload. `Watchdog` is the transmit timeout. `Arithmetic` holds lemmas about
quotients, `TxSizes` the sizes of the transmit side, `Options` the optional value.

## Properties that do not hold as one might expect

Six properties fail in general; for each there is a concrete run or input and the exact condition.

- The address ranges of packets in flight can overlap (`TxReach.RangesCanOverlap`): descriptors of
  a packet are released one by one, so a new packet can reach the ranges of one that is half
  released. `TxRanges.RangesDisjointExactly` says exactly along which runs they stay apart.
- A packet's entries of the range array can be overwritten while it is in flight, by such a packet or
  by a mapping that fails after it has written them (`TxReach.FailureOverwrites`).
  `TxRanges.PagesKeptUntilUnmapped` says exactly along which runs they are not.
- Memory descriptors can run out while more than half of the ring is free
  (`TxReach.MemoryDescriptorsRunOut`); the mapping then reports success without mapping, and later a
  packet not yet sent is unmapped (`TxStarved.UnmapsPacketInFlight`). A packet of empty buffers takes
  one that is not given back for it (`TxReach.EmptyPacketsUseUp`). `TxRanges.LockstepExactly` says exactly along which runs
  packets and memory descriptors stay in step.
- A frame check sequence spread over three or more buffers is not removed
  (`RxFrames.FcsOverThreeBuffers`), nor one of a frame shorter than itself.
  `RxFrames.DeliversFrame` gives the exact condition.
- A clear ignores that the mapper refused a batch and arms descriptors without a mapping
  (`RxPromises.RefusedClearReached`), at addresses that may be handed out again, so that the chip
  writes into another slot's buffer (`RxPromises.StaleAddressReused`). `RxPromises.ClearExact` says
  which descriptors, `RxPromises.StrayUntilHandedOut` until when they do no harm, and
  `RxPromises.ArmedIsMapped` along which runs every armed descriptor is mapped.
- The receive loop's end test takes a descriptor already processed for a finished one once the loop
  has gone around the whole ring (`RxPromises.LoopGoesAround`, `RxPromises.LoopNeverEnds`).
  `RxPromises.LoopTestExact` says that this is the only case.

Also, accepted firmware need not halt (`Firmware.AcceptedMayLoop`).

## Assumptions

- Memory is sequentially consistent; the driver's barriers are taken to achieve that.
- One completion handler runs at a time, one `getPacket` caller and one output thread exist, and a
  clear happens with both threads stopped and the chip reset.
- The chip consumes descriptors in order, never past the announced tail, and only owned ones; the
  close register is meaningful modulo the pointer width: 16 bits for version 3 of the no-close
  scheme, 31 or 32 bits for later ones.
- A transmit packet is mapped to at most 32 segments. When the framework cannot get one of their
  device addresses, the memory descriptor is given back with its tag set, as in the source; the
  lockstep results allow for that tag. Whether the framework accepts an empty list of ranges is left
  open: a packet of empty buffers either loses a memory descriptor or fails to map.
- The mapper hands out non-zero device addresses, no two alike and none that is in use for a receive
  buffer, and all 16 of a batch or none; addresses it took back it may hand out again. Only the
  receive ring's own mappings are looked up: a stale address given to another user of the mapper
  counts as leading nowhere. The chip finishes a descriptor whose address leads nowhere all the same.
- An mbuf is not shortened by more than its length: `mbuf_adjustlen` then changes nothing. Fragment
  lengths are below 0x2000, where the two receive loops' masks agree.
- Register reads, allocation, the mapper, completions and time are parameters.
- The EEPROM is a 93C46, 93C56 or 93C66 as its data sheets describe: it samples DI on rising clocks
  while selected, starts a complete erase or write when deselected, and shows ready on DO. Its
  bulk erase and bulk write instructions are not decoded, as the driver never sends them.

## Model

| member | source | states |
|---|---|---|
| `TxPromises.FreePlusClaimed` | RTL812xLucy/RTL812xLucy.cpp:636-715 | In every state of every interleaving, free descriptors plus claimed and not yet released ones are 1024, and at least four are free, also once the packet being queued has taken its own. |
| `TxPromises.ThreadsUseDifferentSlots` | RTL812xLucy/RTL812xLucy.cpp:725-745 | While the output thread fills a slot, the completion handler works on another one, on a descriptor the device has closed. |
| `TxPromises.IndicesFollowPointers` | RTL812xLucy/RTL812xLucy.cpp:1154-1178 | In every reachable state the ring indices are the free-running tail and close pointers modulo 1024, after any number of wraps. |
| `TxPromises.CompletionCountExact` | RTL812xLucy/RTL812xLucy.cpp:1152-1158 | Whatever the high bits of the close register and however often pointers wrapped, the masked difference is exactly the number of descriptors closed since the last look. |
| `TxSafety.NumDoneExact` | RTL812xLucy/RTL812xLucyHardware.cpp:1184-1194 | The same for bare numbers and each pointer width (16, 31, 32 bits): the masked 32-bit difference is the true difference when that is at most one ring. |
| `TxSafety.NumDoneSpan` | RTL812xLucy/RTL812xLucy.cpp:1152-1158 | The same for pointers of any span larger than the ring that divides 2^32. |
| `TxSafety.NumDoneMasks` | RTL812xLucy/RTL812xLucyHardware.cpp:1184-1194 | The masks themselves: 16, 31 and 32 bits of the 32-bit difference. |
| `TxPromises.AnnouncedAreReady` | RTL812xLucy/RTL812xLucy.cpp:725-754 | Each doorbell falls on a packet boundary; every descriptor up to it is owned and has its segment's address and length, its packet's offload words and the marks of its place in the packet; the ring-end mark is on index 1023 only. |
| `TxPromises.EncodeMeans` | RTL812xLucy/RTL812xLucy.cpp:725-741 | Which word of a descriptor holds what. |
| `TxPromises.FirstGivenLast` | RTL812xLucy/RTL812xLucy.cpp:725-746 | While the other descriptors of a packet are written, its first one is not owned. |
| `TxPromises.WireIsPrefixOfQueue` | RTL812xLucy/RTL812xLucy.cpp:725-754 | The device never meets a descriptor it does not own, and what it has sent is a prefix of the announced packets, in order, with all their segments. |
| `TxPromises.DeviceSendsAnnounced` | RTL812xLucy/RTL812xLucy.cpp:718-754 | Left to run, the device stops at the doorbell having sent exactly the announced packets: reading the ring by FirstFrag and LastFrag recovers the queue. |
| `TxFrames.ParseFlat` | RTL812xLucy/RTL812xLucy.cpp:725-741 | Gathering a packet-by-packet descriptor sequence by its first and last marks gives back the packets with their segments and offload words. |
| `TxPromises.CompletionIsFifo` | RTL812xLucy/RTL812xLucy.cpp:1166-1179 | Packets are completed in queue order, and never more of them than the device has sent. |
| `TxPromises.FreedExactlyOnce` | RTL812xLucy/RTL812xLucy.cpp:636-715 | In every reachable state each dequeued packet is in exactly one place exactly once: freed, in flight, or held by the output thread. |
| `TxPromises.ClearRestores` | RTL812xLucy/RTL812xLucySetup.cpp:733-745 | A clear leaves every packet dequeued so far freed exactly once, and ring, memory-descriptor ring and pointers as at start-up (stale address words aside). |
| `TxTheorems.RunInv` | RTL812xLucy/RTL812xLucy.cpp:611-762 | Every state of every run of output, completion, device and clear steps satisfies the protocol invariant. |
| `TxModel.SkipIsMask` | RTL812xLucy/RTL812xLucy.cpp:715-716 | The linear index step of the model is addition masked with kTxDescMask. |
| `TxCalls.OutputIsRun` | RTL812xLucy/RTL812xLucy.cpp:636-756 | The loop and doorbell of a call of outputStart are a run of output-thread steps of the protocol. |
| `TxCalls.TakesInOrder` | RTL812xLucy/RTL812xLucy.cpp:636-746 | outputStart takes the stack's packets in order: what it adds to the queue are the requests, each under its own packet's number with its own offload words and segments, none that could be mapped missing. |
| `TxCalls.Queue` | RTL812xLucy/RTL812xLucy.cpp:636-746 | One turn of the loop, field by field: a packet is queued exactly if it has segments and could be mapped or there was no memory descriptor to try it with, and freed otherwise; what is taken of descriptors and memory descriptors. |
| `TxCalls.InterruptIsRun` | RTL812xLucy/RTL812xLucy.cpp:1154-1179 | The close-pointer read and loop of a call of txInterrupt are a run of handler steps of the protocol. |
| `TxDriver.Driver.constructor` | RTL812xLucy/RTL812xLucySetup.cpp:514-520 | The arrays and variables start in the protocol's initial state. |
| `TxDriver.Driver.FillDescriptors` | RTL812xLucy/RTL812xLucy.cpp:725-746 | The descriptor loop on the arrays does what the step-by-step fill does; the first descriptor's own bit is written last. |
| `TxDriver.Driver.GrabMemory` | RTL812xLucy/RTL812xLucyVTD.cpp:322-397 | The memory-descriptor bookkeeping of txMapPacket on the array: taking one, the fall-through at one free descriptor, and giving it back when the mapping fails, with or without its tag left active. |
| `TxDriver.Driver.GetSegments` | RTL812xLucy/RTL812xLucy.cpp:698-714 | Segments from txMapPacket or the mbuf cursor; a packet without any is dropped, and the protocol takes the step that fits: mapping, plain drop, failed mapping, or a memory descriptor lost. |
| `TxDriver.Driver.ClaimDescriptors` | RTL812xLucy/RTL812xLucy.cpp:715-719 | Claiming a mapped packet's descriptors on the variables is the protocol's claim. |
| `TxDriver.Driver.QueuePacket` | RTL812xLucy/RTL812xLucy.cpp:636-746 | One turn of outputStart's loop on the arrays: queued with its offload words and segments, or freed if it is too long, cannot be mapped or is empty. |
| `TxDriver.Driver.TakePackets` | RTL812xLucy/RTL812xLucy.cpp:636-746 | The loop of outputStart is the protocol's, and where it stops. |
| `TxDriver.Driver.RingDoorbell` | RTL812xLucy/RTL812xLucy.cpp:750-754 | Everything queued is announced. |
| `TxDriver.Driver.OutputStart` | RTL812xLucy/RTL812xLucy.cpp:631-761 | A down interface changes nothing. Otherwise packets are taken in the stack's order until none is left or fewer than 36 descriptors are free; those added to the queue are the requests taken, in order, with their offload words and segments, and all of the queue is announced. Success is returned exactly if the interface is up and 36 or more descriptors are free. |
| `TxDriver.Driver.TxUnmapPacket` | RTL812xLucy/RTL812xLucyVTD.cpp:403-414 | Gives back the next memory descriptor of the ring. |
| `TxDriver.Driver.GiveBack` | RTL812xLucy/RTL812xLucy.cpp:1170-1175 | Unmaps, if mapped, and frees the packet of the descriptor. |
| `TxDriver.Driver.ReleaseDescriptor` | RTL812xLucy/RTL812xLucy.cpp:1166-1179 | One turn of txInterrupt's loop on the arrays and counters. |
| `TxDriver.Driver.TxInterrupt` | RTL812xLucy/RTL812xLucy.cpp:1150-1186 | Releases exactly as many descriptors as the close pointer advanced, counts each, returns the freed packets in order, and wakes the output thread exactly if the dirty index moved and more than a tenth of the ring is free. |
| `TxPromises.IndexShowsProgress` | RTL812xLucy/RTL812xLucy.cpp:1181-1182 | In every reachable state the dirty index moves in a call of the handler if and only if a descriptor was released: comparing indices misses no completion, also across a wrap. |
| `TxDriver.Driver.ClearMemory` | RTL812xLucy/RTL812xLucySetup.cpp:722-732 | All memory descriptors inactive. |
| `TxDriver.Driver.ClearSlots` | RTL812xLucy/RTL812xLucySetup.cpp:733-741 | Frees what the slots hold, in slot order, and resets each descriptor's first word. |
| `TxContent.SomesInOrder` | RTL812xLucy/RTL812xLucySetup.cpp:733-741 | The packets a clear frees are listed in slot order, none left out. |
| `TxDriver.Driver.ClearTxRing` | RTL812xLucy/RTL812xLucySetup.cpp:712-745 | The transmit half of clearRxTxRings is the protocol's clear. |
| `TxMemory.MapLockstep` | RTL812xLucy/RTL812xLucyVTD.cpp:322-332 | Mapping a packet keeps memory descriptors and packet queue in lockstep if and only if more than one memory descriptor is free. |
| `TxMemory.FailLockstep` | RTL812xLucy/RTL812xLucyVTD.cpp:325-397 | A mapping that fails keeps them in lockstep, also when it leaves its memory descriptor tagged. |
| `TxMemory.LoseBreaksLockstep` | RTL812xLucy/RTL812xLucyVTD.cpp:318-388 | A packet of empty buffers takes a memory descriptor that is not given back when it is dropped; the lockstep is lost however many are free. |
| `TxMemory.UnmapReleasesOwnPacket` | RTL812xLucy/RTL812xLucyVTD.cpp:403-414 | In lockstep, the descriptor txUnmapPacket gives back is the one of the packet being freed, and lockstep is kept. |
| `TxMemory.StepLockstep` | RTL812xLucy/RTL812xLucyVTD.cpp:264-414 | A step of any thread keeps the lockstep if and only if it is neither a mapping that finds at most one memory descriptor free nor one of a packet of empty buffers. |
| `TxRanges.RunLockstep` | RTL812xLucy/RTL812xLucyVTD.cpp:264-414 | Lockstep holds after every run without such mappings. |
| `TxRanges.LockstepExactly` | RTL812xLucy/RTL812xLucyVTD.cpp:264-414 | For every run: the lockstep holds in every state along it if and only if there is no such mapping in it. The exact condition for a property that fails in general. |
| `TxRanges.TagLeftExactly` | RTL812xLucy/RTL812xLucyVTD.cpp:362-397 | In a run in lockstep the next memory descriptor to use is tagged active exactly if the last mapping that left a trace failed for want of a device address. |
| `TxRanges.ClearCompletes` | RTL812xLucy/RTL812xLucySetup.cpp:722-732 | A clear, which completes every tagged memory descriptor, completes those of the packets mapped and no other if and only if no tag was left that way. |
| `TxRanges.LockstepEverywhere` | RTL812xLucy/RTL812xLucyVTD.cpp:322-414 | In every such run: descriptors in use equal packets mapped and one stays free; a packet's ranges start at the slot of its first descriptor, are as many as its descriptors and lie inside the array; all but the oldest packet's ranges are disjoint; the descriptor given back belongs to the packet being freed. |
| `TxRanges.RangesInArray` | RTL812xLucy/RTL812xLucyVTD.cpp:323-329 | A packet's ranges end inside the array of 1024 + 32 entries, although range indices do not wrap. |
| `TxRanges.YoungerRangesDisjoint` | RTL812xLucy/RTL812xLucyVTD.cpp:323-329 | Ranges of packets younger than the oldest mapped one never overlap. |
| `TxRanges.RangesStayDisjoint` | RTL812xLucy/RTL812xLucyVTD.cpp:323-329 | Mapping a packet keeps all ranges in use pairwise disjoint if and only if it does not start below, and reach into, the ranges of the oldest mapped packet. |
| `TxRanges.RangesDisjointExactly` | RTL812xLucy/RTL812xLucyVTD.cpp:323-329 | For every run whose mappings found memory descriptors: the ranges in use are pairwise disjoint in every state along it if and only if no mapping of the run was of that kind. The exact condition for a property that fails in general. |
| `TxRanges.MapKeepsPages` | RTL812xLucy/RTL812xLucyVTD.cpp:323-329 | A successful mapping leaves the entries of all packets in use alone if and only if it is not of that kind. |
| `TxRanges.FailKeepsPages` | RTL812xLucy/RTL812xLucyVTD.cpp:323-397 | So does a mapping that fails after it has written its entries. |
| `TxRanges.DisjointKeepsPages` | RTL812xLucy/RTL812xLucyVTD.cpp:323-397 | Over runs: every mapped packet's entries are its own at every moment if and only if the ranges in use are always disjoint and no failed mapping was of that kind. Disjoint ranges alone are not enough. |
| `TxRanges.PagesKeptUntilUnmapped` | RTL812xLucy/RTL812xLucyVTD.cpp:323-414 | For every run in lockstep: each packet's entries of the range array stay its own from its mapping until it is unmapped if and only if no mapping of the run, successful or failed, was of that kind. |
| `TxRanges.BetweenPacketsNeverBlocked` | RTL812xLucy/RTL812xLucy.cpp:1166-1179 | That condition holds whenever the completion handler stands between two packets. |
| `TxMemory.OneTurnDisjoint` | RTL812xLucy/RTL812xLucyVTD.cpp:323-329 | Packets within one turn of the descriptor ring use disjoint ranges. |
| `TxReach.MemoryDescriptorsRunOut` | RTL812xLucy/RTL812xLucyVTD.cpp:322-389 | 511 one-segment packets reach a state with more than half of the descriptors free but one memory descriptor left; the next mapping leaves the ring untouched and breaks the lockstep. |
| `TxReach.RangesCanOverlap` | RTL812xLucy/RTL812xLucyVTD.cpp:323-329 | A reachable state, with the handler halfway through a packet, in which mapping one more packet makes two ranges in use overlap. |
| `TxReach.FailureOverwrites` | RTL812xLucy/RTL812xLucyVTD.cpp:325-397 | A reachable state in which a mapping that fails overwrites an entry of a packet in flight, although no two ranges in use overlap. |
| `TxReach.EmptyPacketsUseUp` | RTL812xLucy/RTL812xLucyVTD.cpp:318-388 | One packet of empty buffers breaks the lockstep with all memory descriptors free; 511 of them leave one, with nothing in flight. |
| `TxStarved.UnmapsPacketInFlight` | RTL812xLucy/RTL812xLucyVTD.cpp:322-414 | What such a mapping leads to: a reachable state in which the handler is about to unmap for packet 511 and the memory descriptor it takes is that of packet 512, which is announced and not yet sent. |
| `TxMap.ShortCutAgrees` | RTL812xLucy/RTL812xLucyVTD.cpp:288-298 | The one-page shortcut gives the same segments as the general split if and only if the buffer is not empty. |
| `TxMap.NoSegments` | RTL812xLucy/RTL812xLucyVTD.cpp:288-318 | A packet comes out without segments if and only if all its buffers are empty and it does not take the shortcut. |
| `TxMap.OnePageMeans` | RTL812xLucy/RTL812xLucyVTD.cpp:288-298 | When the shortcut is taken: one buffer whose bytes lie in one page, or an empty one that does not start on a page boundary. |
| `TxMap.PagesHold` | RTL812xLucy/RTL812xLucyVTD.cpp:325-329 | What is recorded for a segment is one whole, aligned page that holds all of it. |
| `TxMap.SegmentsInPages` | RTL812xLucy/RTL812xLucyVTD.cpp:288-316 | Every segment is non-empty and lies in one page if and only if the packet is not a lone empty buffer that takes the one-page shortcut. |
| `TxMap.SegmentsBytes` | RTL812xLucy/RTL812xLucyVTD.cpp:288-316 | The segments, in order, are exactly the packet's bytes, for every chain and page size. |
| `TxMap.DeviceReadsPacket` | RTL812xLucy/RTL812xLucyVTD.cpp:281-384 | For every chain, page size and page-to-device mapping, reading the vector through the mapping yields exactly the packet's bytes in order. |
| `TxMap.VectorReadsAs` | RTL812xLucy/RTL812xLucyVTD.cpp:323-384 | The same in terms of what is left in memory: vector, recorded pages and device addresses alone determine the packet's bytes. |
| `TxMapper.TxMapInfo.constructor` | RTL812xLucy/RTL812xLucyVTD.cpp:133-163 | All memory descriptors free and inactive. |
| `TxMapper.TxMapInfo.SplitOne` | RTL812xLucy/RTL812xLucyVTD.cpp:302-314 | The inner loop cuts one buffer at page boundaries, or stops when the segments do not fit. |
| `TxMapper.TxMapInfo.SplitAll` | RTL812xLucy/RTL812xLucyVTD.cpp:299-316 | The loop over the chain leaves exactly the split of the chain in txSCRange, or reports that it does not fit. |
| `TxMapper.TxMapInfo.Split` | RTL812xLucy/RTL812xLucyVTD.cpp:288-316 | With the shortcut: the segments of the packet, or too many of them. |
| `TxMapper.TxMapInfo.RecordPages` | RTL812xLucy/RTL812xLucyVTD.cpp:323-329 | Records the page of each segment at the packet's descriptor index and reduces the segments to offsets; other ranges keep their contents. |
| `TxMapper.TxMapInfo.FillVector` | RTL812xLucy/RTL812xLucyVTD.cpp:368-384 | Fills the vector with device address plus offset up to the first segment without an address. |
| `TxMapper.TxMapInfo.MapSegments` | RTL812xLucy/RTL812xLucyVTD.cpp:322-397 | Success takes one memory descriptor for the packet's pages; any failure restores counter and index; in every case the packet's pages are left in the range array. |
| `TxMapper.TxMapInfo.TxMapPacket` | RTL812xLucy/RTL812xLucyVTD.cpp:264-397 | All outcomes: too many segments, no memory descriptor left (count returned, vector and range array untouched), success, after which the device reads the packet's bytes through the vector and the recorded pages, and failures that restore the ring, leave the pages written and, in one case, a tag active. |
| `RxPool.ListIsChain` | RTL812xLucy/RTL8125LucyRxPool.cpp:140-229 | Under every interleaving, following the links from the head visits distinct packets and ends at the tail, or one packet past it while the tail is being moved; the counter is that length less packets on their way in or out. |
| `RxPool.NoSharedPacket` | RTL812xLucy/RTL8125LucyRxPool.cpp:151-217 | Neither thread writes the link of a packet the other is using; the refill thread never writes into a packet already handed out. |
| `RxPool.HandedOnce` | RTL812xLucy/RTL8125LucyRxPool.cpp:140-187 | No packet is returned by getPacket twice, over both lists and direct allocations. |
| `RxPool.HandedUnlinked` | RTL812xLucy/RTL8125LucyRxPool.cpp:154-160 | A packet of the pool that getPacket has returned is linked to nothing, then and in every later state. |
| `RxPool.RefillGoesOn` | RTL812xLucy/RTL8125LucyRxPool.cpp:189-229 | A refill goes on to the cluster list when the plain one is full, and ends when an allocation fails or the cluster list is full. |
| `RxPool.NoneLost` | RTL812xLucy/RTL8125LucyRxPool.cpp:140-229 | Every packet allocated for the pool was handed out, is being handed out, is on its chain, or is about to be linked. |
| `RxPool.CountInRange` | RTL812xLucy/RTL8125LucyRxPool.cpp:140-229 | Each counter stays between 1 and its capacity. |
| `RxPool.OneRefill` | RTL812xLucy/RTL8125LucyRxPool.cpp:161-164 | The flag counts refills: at most one is being scheduled, scheduled or running, so a list never has two producers. |
| `RxPool.LowMeansRefill` | RTL812xLucy/RTL8125LucyRxPool.cpp:161-164 | A call that returns a pool packet either saw at least the threshold left, or leaves exactly one refill scheduled or running. |
| `RxPool.GetNeverStuck` | RTL812xLucy/RTL8125LucyRxPool.cpp:154-160 | A getPacket call can always take its next step. |
| `RxPool.NeverTheLast` | RTL812xLucy/RTL8125LucyRxPool.cpp:154-160 | Once counted out, the head packet has a successor and is not the tail. |
| `RxPool.StepInv` | RTL812xLucy/RTL8125LucyRxPool.cpp:140-229 | Every single read or write of either thread keeps the pool invariant. |
| `RxPool.RunInv` | RTL812xLucy/RTL8125LucyRxPool.cpp:140-229 | Hence every interleaving does. |
| `RxPool.InitInv` | RTL812xLucy/RTL8125LucyRxPool.cpp:40-106 | initWithCapacity establishes it. |
| `RxBuffers.PacketList.Append` | RTL812xLucy/RTL8125LucyRxPool.cpp:76-83 | Linking a packet behind the tail extends the list by it. |
| `RxBuffers.PacketList.TakeFirst` | RTL812xLucy/RTL8125LucyRxPool.cpp:154-160 | Unlinks the first packet and clears its link, but never takes the last. |
| `RxBuffers.LucyRxPool.constructor` | RTL812xLucy/RTL8125LucyRxPool.cpp:52-62 | Both lists empty, no refill scheduled. |
| `RxBuffers.LucyRxPool.TakeBeside` | RTL812xLucy/RTL8125LucyRxPool.cpp:154-160 | Taking a packet from one list leaves the other list's links alone. |
| `RxBuffers.LucyRxPool.Serve` | RTL812xLucy/RTL8125LucyRxPool.cpp:153-165 | Takes the first packet and schedules a refill exactly if the list got low and none was scheduled. |
| `RxBuffers.LucyRxPool.GetPacket` | RTL812xLucy/RTL8125LucyRxPool.cpp:140-187 | Allocation first. Without it, a request larger than maxCopySize gets the first packet of the cluster list, any other the first of the plain list, and the other list keeps its packets; null, with nothing changed, when only one is left. |
| `RxBuffers.LucyRxPool.RefillList` | RTL812xLucy/RTL8125LucyRxPool.cpp:196-211 | Appends packets until the list is full or an allocation fails, and says which. |
| `RxBuffers.LucyRxPool.RefillBeside` | RTL812xLucy/RTL8125LucyRxPool.cpp:196-211 | The same, leaving the other list's links alone. |
| `RxBuffers.LucyRxPool.FillBoth` | RTL812xLucy/RTL8125LucyRxPool.cpp:196-226 | The plain list is filled first; the first failed allocation ends the refill. |
| `RxBuffers.LucyRxPool.RefillPool` | RTL812xLucy/RTL8125LucyRxPool.cpp:189-229 | Which packets end up in which list, both full when there are packets enough, and the flag clear afterwards. |
| `RxBuffers.LucyRxPool.InitWithCapacity` | RTL812xLucy/RTL8125LucyRxPool.cpp:40-124 | Succeeds exactly if capacities are positive, the timer exists and all allocations succeed; otherwise both lists are empty. |
| `RxBuffers.LucyRxPool.ReplaceOrCopyPacket` | RTL812xLucy/RTL8125LucyRxPool.cpp:241-276 | A long packet is handed over and replaced, from the cluster list if the allocator has none; a short one is copied byte for byte, into one of the plain list, with its packet header but for the header pointer; with no packet to be had, nothing is delivered and the ring keeps its own. |
| `RxFrames.DeliversFrame` | RTL812xLucy/RTL812xLucy.cpp:1199-1318 | For every run with any drops: the packet passed up for a frame end is the next in order, made of the fragments since the last frame end or drop, and carries exactly their bytes without the last four if and only if the check sequence lies in the last two buffers. |
| `RxFrames.DeliversOnlyFrames` | RTL812xLucy/RTL812xLucy.cpp:1199-1318 | Nothing else is passed up. |
| `RxFrames.DeliversAllFrames` | RTL812xLucy/RTL812xLucyVTD.cpp:523-643 | Without drops: one packet per frame, in order, for every fragmentation; same exact condition. |
| `RxFrames.FcsOverThreeBuffers` | RTL812xLucy/RTL812xLucy.cpp:1260-1270 | A concrete frame whose check sequence spans three buffers and is not cut off. |
| `RxFrames.FinishExact` | RTL812xLucy/RTL812xLucy.cpp:1248-1280 | The packet the last fragment completes carries the frame without its check sequence if and only if that lies in the last two buffers. |
| `RxFrames.HoldsCurrent` | RTL812xLucy/RTL812xLucy.cpp:1294-1309 | Between descriptors the driver holds exactly the fragments since the last frame end or drop. |
| `RxFrames.StartIs` | RTL812xLucy/RTL812xLucy.cpp:1294-1309 | Those fragments are exactly the ones behind the last frame end or drop. |
| `RxFrames.OneBuffer` | RTL812xLucy/RTL812xLucy.cpp:1248-1291 | A frame in one buffer goes up without its last four bytes. |
| `RxFrames.ReceiveConcat` | RTL812xLucy/RTL812xLucy.cpp:1199-1199 | Where a call stops on maxCount and the next one resumes makes no difference. |
| `RxFrames.Receiver.constructor` | RTL812xLucy/RTL812xLucySetup.cpp:769-780 | No fragment held. |
| `RxFrames.Receiver.DiscardPacketFragment` | RTL812xLucy/RTL812xLucySetup.cpp:769-780 | Drops the fragment held, and nothing else. |
| `RxFrames.Receiver.ProcessDescriptor` | RTL812xLucy/RTL812xLucy.cpp:1204-1309 | One pass of the loop on the driver's fields: a drop discards what is held, a frame end passes one packet up and holds nothing, anything else is held behind the rest. |
| `RxFrames.Receiver.RxInterrupt` | RTL812xLucy/RTL812xLucy.cpp:1188-1320 | Processes descriptors until none is ready or maxCount packets went up, with the effect of that many passes. |
| `RxPromises.ArmedIsMapped` | RTL812xLucy/RTL812xLucyVTD.cpp:436-507 | For every run: at every moment, also in the middle of a remap and after refused remaps, the address in each descriptor the chip owns leads, through all mappings in use, to the mbuf in its slot, if and only if the mapper refused no batch during a clear. |
| `RxPromises.ArmedLeadsToSlot` | RTL812xLucy/RTL812xLucySetup.cpp:747-758 | Descriptor by descriptor: the address in a descriptor the chip owns leads to its slot's mbuf if and only if it was last armed with a mapping. |
| `RxPromises.BareLeadsTo` | RTL812xLucy/RTL812xLucySetup.cpp:747-758 | One armed by a refused clear without a mapping leads nowhere if and only if its address is not in use; if it is in use for another slot, the chip's write goes to what is mapped for that slot, its mbuf or one already passed up. |
| `RxPromises.ClearArmsStray` | RTL812xLucy/RTL812xLucySetup.cpp:747-758 | Right after such a clear it leads nowhere if and only if its old address is not among those the mapper has just handed out. |
| `RxPromises.StrayUntilHandedOut` | RTL812xLucy/RTL812xLucyVTD.cpp:443-494 | From then until it is armed again it leads nowhere at every moment if and only if no step hands its address out. |
| `RxPromises.StaleAddressReused` | RTL812xLucy/RTL812xLucyVTD.cpp:443-494 | A reachable ring, after a clear refused at the second batch, in which the fragment received for slot 16 was written into the mbuf of slot 0 and the mbuf of slot 16 holds nothing. |
| `RxPromises.ClearExact` | RTL812xLucy/RTL812xLucySetup.cpp:747-758 | A clear refused at batch k arms every descriptor; exactly those of earlier batches, and those of later batches that still had a mapping and an unreplaced buffer, lead to their mbufs. |
| `RxPromises.ClearMapsAll` | RTL812xLucy/RTL812xLucySetup.cpp:747-758 | After a clear every armed descriptor is mapped if and only if no batch was refused. |
| `RxPromises.RefusedClearReached` | RTL812xLucy/RTL812xLucySetup.cpp:747-758 | A reachable ring in which armed descriptors are not mapped: a clear refused at its first batch. |
| `RxPromises.DeliversFilled` | RTL812xLucy/RTL812xLucyVTD.cpp:566-567 | The mbuf taken out of the ring is the one the chip wrote to for that descriptor if and only if it was armed with a mapping; it holds that descriptor's own fragment if and only if, besides, no fragment received later was written into it. |
| `RxPromises.KeptChangesNothing` | RTL812xLucy/RTL812xLucyVTD.cpp:541-638 | A pass that keeps its buffer passes nothing up and leaves slots and buffers as they are. |
| `RxPromises.ReplacedChangesSlot` | RTL812xLucy/RTL812xLucyVTD.cpp:566-638 | One that replaces it puts the new buffer into its slot, marked as not mapped, and touches no other slot. |
| `RxPromises.ReadsInOrder` | RTL812xLucy/RTL812xLucyVTD.cpp:523-643 | In every run without a refused clear, the n-th pass of the loop since the last clear finds the n-th fragment the chip received since then. |
| `RxReceive.FramesArrive` | RTL812xLucy/RTL812xLucyVTD.cpp:523-643 | From the wire to the stack: in every such run, for every fragmentation and any drops, the packet passed up for a frame end is the next in order and carries exactly the bytes received since the last frame end or drop, without the last four, if and only if the check sequence lies in the last two buffers. |
| `RxReceive.PacketsDistinct` | RTL812xLucy/RTL812xLucyVTD.cpp:566-567 | Ring and pool together: when each replacement takes what one getPacket call returned, the mbufs in the ring and those passed up are all different packets. |
| `RxPromises.BuffersDistinct` | RTL812xLucy/RTL812xLucyVTD.cpp:541-567 | Ring buffers are pairwise distinct, none of them was passed up, none was passed up twice. |
| `RxPromises.MapNextRounded` | RTL812xLucy/RTL812xLucyVTD.cpp:632-647 | Between calls rxMapNextIndex is rxNextDescIndex rounded down to its batch of 16, across wraps; with refused mappings it lags exactly that many batches. |
| `RxPromises.LoopTestExact` | RTL812xLucy/RTL812xLucyVTD.cpp:523-523 | The own bit tells a finished descriptor from one already processed if and only if the loop has not gone around the whole ring. |
| `RxPromises.LoopGoesAround` | RTL812xLucy/RTL812xLucyVTD.cpp:523-567 | A reachable loop that has gone around: all 1024 descriptors processed, the next one still looks finished, and the next pass can pass up an mbuf the chip never wrote to. |
| `RxPromises.LoopNeverEnds` | RTL812xLucy/RTL812xLucyVTD.cpp:523-523 | Once the chip has no descriptor left, the loop's test holds after any number of further passes that keep their buffers. |
| `RxPromises.ClearRestores` | RTL812xLucy/RTL812xLucySetup.cpp:747-760 | A clear leaves all indices zero, the buffers in place and every descriptor armed; with no batch refused, armed with the current mapping of its slot's mbuf. |
| `RxRing.StepInv` | RTL812xLucy/RTL812xLucyVTD.cpp:425-649 | Every step of chip and driver keeps the ring invariant. |
| `RxRing.RunInv` | RTL812xLucy/RTL812xLucyVTD.cpp:425-649 | Hence every interleaving does. |
| `RxRing.InitInv` | RTL812xLucy/RTL812xLucyVTD.cpp:18-104 | setupRxMap establishes it. |
| `RxDriver.Driver.constructor` | RTL812xLucy/RTL812xLucyVTD.cpp:18-104 | The arrays start in the protocol's initial state. |
| `RxDriver.Driver.ProcessOne` | RTL812xLucy/RTL812xLucyVTD.cpp:541-638 | One pass of rxInterruptVTD's loop: the slot keeps its buffer, or gets the new one and a zero phyAddr. |
| `RxDriver.Driver.OnePass` | RTL812xLucy/RTL812xLucyVTD.cpp:541-643 | The same with the loop's own counters: batches completed and buffers used. |
| `RxDriver.Driver.UpdateRanges` | RTL812xLucy/RTL812xLucyVTD.cpp:449-453 | Only ranges of dirty slots of the batch change, to the new buffer. |
| `RxDriver.Driver.MapBatch` | RTL812xLucy/RTL812xLucyVTD.cpp:449-470 | The mapper maps the batch, or refuses it and the batch counts as lost; in both cases the ranges of its replaced buffers are up to date. |
| `RxDriver.Driver.WriteAddress` | RTL812xLucy/RTL812xLucyVTD.cpp:490-493 | The new address recorded and written to the descriptor. |
| `RxDriver.Driver.ArmOne` | RTL812xLucy/RTL812xLucyVTD.cpp:490-494 | Address first, own bit second. |
| `RxDriver.Driver.ArmBatch` | RTL812xLucy/RTL812xLucyVTD.cpp:475-498 | All 16 descriptors of a batch armed at the mapper's addresses. |
| `RxDriver.Driver.MoveOn` | RTL812xLucy/RTL812xLucyVTD.cpp:500-505 | The map index goes on by one batch, back to 0 at the end of the ring. |
| `RxDriver.Driver.RemapBatch` | RTL812xLucy/RTL812xLucyVTD.cpp:436-507 | One batch of rxMapBuffers; the index moves on only if it was mapped. |
| `RxDriver.Driver.RxMapBuffers` | RTL812xLucy/RTL812xLucyVTD.cpp:425-511 | All batches mapped, or the rest lost at the first refusal; ring contents unchanged. |
| `RxDriver.Driver.MapForClear` | RTL812xLucy/RTL812xLucyVTD.cpp:436-511 | The same function as a clear calls it, over the whole ring and refused at batch k: which device addresses and ranges it leaves behind. |
| `RxDriver.Driver.ArmAll` | RTL812xLucy/RTL812xLucySetup.cpp:750-758 | Every descriptor owned by the chip, at its buffer's recorded device address. |
| `RxDriver.Driver.ClearRxRing` | RTL812xLucy/RTL812xLucySetup.cpp:747-760 | The receive half of clearRxTxRings, with a refusal at any batch, is the protocol's clear. |
| `RxDriver.Driver.ProcessAll` | RTL812xLucy/RTL812xLucyVTD.cpp:523-643 | The loop ends at a descriptor the chip owns, or when no further outcome is given; what was taken out is given by the outcomes. |
| `RxDriver.Driver.MapCompleted` | RTL812xLucy/RTL812xLucyVTD.cpp:644-647 | Completed batches are mapped after the loop. |
| `RxDriver.Driver.RxInterruptVTD` | RTL812xLucy/RTL812xLucyVTD.cpp:513-649 | The whole call: which mbufs leave the ring, the ring invariant again, and rxMapNextIndex rounded down. |
| `Firmware.FormatOk` | RTL812xLucy/rtl812x_firmware.c:66-110 | Accepts exactly the files whose code words lie inside them, with size, checksum and header as the format demands. |
| `Firmware.FormattedMeans` | RTL812xLucy/rtl812x_firmware.c:66-110 | The same in bytes: header exactly if the first four are zero, 45 bytes of header, start and length of the code at 36 and 40, lowest byte first. |
| `Firmware.WordBytes` | RTL812xLucy/rtl812x_firmware.c:175-175 | The words of the code, lowest byte first. |
| `Firmware.SumIs` | RTL812xLucy/rtl812x_firmware.c:82-84 | The checksum adds up every byte. |
| `Firmware.AddUp` | RTL812xLucy/rtl812x_firmware.c:77-84 | The byte-wide sum of the file. |
| `Firmware.DataOk` | RTL812xLucy/rtl812x_firmware.c:112-164 | Accepts exactly the programs whose every instruction is a handled one, selects an existing bus and lands on an instruction when it jumps or skips. |
| `Firmware.FineMeans` | RTL812xLucy/rtl812x_firmware.c:117-158 | What landing on an instruction comes to for each opcode. |
| `Firmware.JumpTarget` | RTL812xLucy/rtl812x_firmware.c:197-199 | A backward jump, in size_t arithmetic, lands inside exactly if it does not reach past word 0; the wrap through -1 is harmless. |
| `Firmware.CheckedCodeIsSafe` | RTL812xLucy/rtl812x_firmware.c:166-247 | Soundness of the checks: for every register behaviour and any number of steps the index stays within the code, every fetched word lies inside the file and has a handled opcode. |
| `Firmware.StaysInside` | RTL812xLucy/rtl812x_firmware.c:174-246 | The index never leaves 0..size. |
| `Firmware.StepMeans` | RTL812xLucy/rtl812x_firmware.c:174-246 | What each instruction does to the value read, the bus, the counter and the writes, from the bits of its word. |
| `Firmware.StepGoesTo` | RTL812xLucy/rtl812x_firmware.c:197-240 | Where each goes on: an equal-skip skips exactly if the value equals the data, an unequal-skip exactly if not, a count-skip at the count. |
| `Firmware.ZeroStops` | RTL812xLucy/rtl812x_firmware.c:180-181 | A zero word ends the program. |
| `Firmware.AndOrBits` | RTL812xLucy/rtl812x_firmware.c:189-195 | The mask and set operations, bit by bit. |
| `Firmware.AcceptedMayLoop` | RTL812xLucy/rtl812x_firmware.c:137-140 | Acceptance does not imply halting: an accepted one-word program runs forever. |
| `FirmwareHalting.CountedCodeHalts` | RTL812xLucy/rtl812x_firmware.c:184-222 | A program whose backward jumps all close counted polling loops halts for every behaviour of the registers. |
| `FirmwareHalting.StepDecreases` | RTL812xLucy/rtl812x_firmware.c:174-246 | Each step of such a program decreases the lexicographic measure (code ahead, half passes left, rest). |
| `FirmwareHalting.ReadsPerEntry` | RTL812xLucy/rtl812x_firmware.c:184-214 | However long the run stays in a loop, the registers it reads there number at most the loop's limit. |
| `FirmwareHalting.CountBelowLimit` | RTL812xLucy/rtl812x_firmware.c:184-214 | In a loop the count never exceeds the limit, and a read is reached only below it. |
| `FirmwareHalting.OnlyWayIn` | RTL812xLucy/rtl812x_firmware.c:184-222 | Such a loop is entered only through the instruction that clears the count. |
| `FirmwareHalting.Execute` | RTL812xLucy/rtl812x_firmware.c:174-246 | One pass of the interpreter in its own variables is the step whose meaning Firmware.StepMeans and Firmware.StepGoesTo give. |
| `FirmwareHalting.Interpret` | RTL812xLucy/rtl812x_firmware.c:166-247 | For any program the interpreter's loop on its own variables, stopped after any number of passes, is that many steps of the run. |
| `FirmwareHalting.WriteFirmware` | RTL812xLucy/rtl812x_firmware.c:166-247 | On counted programs the interpreter's loop ends, in a state of the run. |
| `FirmwareHalting.ShippedLoopPolls` | Firmware/rtl8125a-3.h:92-95 | The polling loop of the shipped images has that shape, with at most 100 reads, wherever it stands in an accepted program that does not skip into it. |
| `FirmwareHalting.ShippedLoopWaits` | Firmware/rtl8125a-3.h:92-95 | What that loop does, for every behaviour of the registers: it reads register 16 until bit 6 is set, at most a hundred times, writes nothing, and goes on behind its end. |
| `FirmwareHalting.ShippedProgramCounted` | Firmware/rtl8125a-3.h:92-95 | A concrete program made of that loop is of the halting kind. |
| `Eeprom.ShiftedBits` | RTL812xLucy/rtl812x_eeprom.c:203-227 | Bits shifted in highest first add up to the number they were taken from. |
| `Eeprom.TopBitFirst` | RTL812xLucy/rtl812x_eeprom.c:203-227 | The first bit to go is the top one of those to send. |
| `Eeprom.OpcodesOnWire` | RTL812xLucy/rtl812x_eeprom.h:36-40 | The five instructions as bits on the wire, start bit first. |
| `Eeprom.SendsHighestFirst` | RTL812xLucy/rtl812x_eeprom.c:229-253 | During a read, DO shows the word's bits highest first. |
| `Eeprom.AddrIs` | RTL812xLucy/rtl812x_eeprom.c:112-139 | An address the part has selects that word; higher ones wrap around. |
| `Eeprom.IssueRead` | RTL812xLucy/rtl812x_eeprom.c:129-130 | Against the chip, opcode and address bits of a read make it send the addressed word. |
| `Eeprom.IssueErase` | RTL812xLucy/rtl812x_eeprom.c:169-170 | Those of an erase make the addressed word's erase ready to run. |
| `Eeprom.IssueWrite` | RTL812xLucy/rtl812x_eeprom.c:175-177 | Those of a write and 16 data bits make the word's programming ready to run. |
| `Eeprom.IssueEnable` | RTL812xLucy/rtl812x_eeprom.c:165-166 | EWEN and EWDS, whatever the unused address bits, set and clear the write enable. |
| `EepromDriver.Master.constructor` | RTL812xLucy/rtl812x_eeprom.c:75-86 | Chip deselected, clock low. |
| `EepromDriver.Master.DetectType` | RTL812xLucy/rtl812x_eeprom.c:46-73 | The type found is that of the part exactly if the controller is a known one, its EEPROM is not a two-wire one and the first word is one of the two magic values; the EEPROM keeps its contents. |
| `EepromDriver.Master.ClockOut` | RTL812xLucy/rtl812x_eeprom.c:212-221 | One bit on DI, sampled once. |
| `EepromDriver.Master.ShiftOutBits` | RTL812xLucy/rtl812x_eeprom.c:203-227 | The chip receives the low bits of the data, highest first. |
| `EepromDriver.Master.ClockIn` | RTL812xLucy/rtl812x_eeprom.c:239-249 | One clock, one bit of DO. |
| `EepromDriver.Master.ShiftInBits` | RTL812xLucy/rtl812x_eeprom.c:229-253 | Sixteen clocks return the word the chip sends. |
| `EepromDriver.Master.StandBy` | RTL812xLucy/rtl812x_eeprom.c:255-266 | Deselects, which starts a complete job, and selects again. |
| `EepromDriver.Master.CmdDone` | RTL812xLucy/rtl812x_eeprom.c:88-106 | Succeeds exactly if the chip is ready within 50000 polls. |
| `EepromDriver.Master.Cleanup` | RTL812xLucy/rtl812x_eeprom.c:75-86 | Chip deselected, clock low. |
| `EepromDriver.Master.SetProtection` | RTL812xLucy/rtl812x_eeprom.c:165-166 | EWEN or EWDS takes effect. |
| `EepromDriver.Master.EraseWord` | RTL812xLucy/rtl812x_eeprom.c:169-172 | The addressed word is all ones and no other changes. |
| `EepromDriver.Master.ProgramWord` | RTL812xLucy/rtl812x_eeprom.c:175-179 | The addressed word is the data and no other changes. |
| `EepromDriver.Master.ReadWord` | RTL812xLucy/rtl812x_eeprom.c:112-139 | Returns the addressed word and changes neither memory nor protection; all ones without a chip. |
| `EepromDriver.Master.Protect` | RTL812xLucy/rtl812x_eeprom.c:181-186 | The chip ends idle, deselected and write-protected, its memory unchanged. |
| `EepromDriver.Master.WriteWord` | RTL812xLucy/rtl812x_eeprom.c:145-187 | Memory afterwards in every case; the chip ends deselected and write-protected if and only if both polls succeed. |
| `EepromDriver.Master.WriteThenRead` | RTL812xLucy/rtl812x_eeprom.c:112-187 | For all addresses and data, reading back returns the word written, every other word is unchanged, and the chip is protected. |
| `Checksum.FoldedIsDeferred` | RTL812xLucy/RTL812xLucy.cpp:2007-2011 | Folding the carry at every step equals the sum of 6 and all words with carries folded at the end, as in section 2 of RFC 1071. |
| `Checksum.FoldMeans` | RTL812xLucy/RTL812xLucy.cpp:2007-2011 | Folding the carries gives the sum in 16-bit one's complement arithmetic: the same remainder by 65535, below 65536, zero only for zero. |
| `Checksum.TotalBytes` | RTL812xLucy/RTL812xLucy.cpp:2007-2011 | The words summed, in bytes: 256 times the bytes at even places plus those at odd places, plus 6. |
| `Checksum.FoldedPermuted` | RTL812xLucy/RTL812xLucy.cpp:2007-2011 | The order of the words does not matter. |
| `Checksum.SumWords` | RTL812xLucy/RTL812xLucy.cpp:2007-2011 | The loop computes the folded sum of 6 and the header's big-endian words, stated in bytes. |
| `Checksum.PrepareTSO4` | RTL812xLucy/RTL812xLucy.cpp:1987-2023 | In bytes: the TCP checksum field gets, high byte first, the folded sum of 6 and the four big-endian address words; all other bytes stay; offset and segment size clamped to 0x7ff. |
| `Checksum.PrepareTSO6` | RTL812xLucy/RTL812xLucy.cpp:2025-2057 | The same with the 32 address bytes of IPv6; the payload length is cleared. |
| `Watchdog.ResetOnlyAfterSix` | RTL812xLucy/RTL812xLucy.cpp:1528-1565 | A reset comes only at the sixth of six consecutive ticks that each found descriptors outstanding and saw no completion since the tick before ended, with no link loss or clear between them and exactly one scan, at the fifth. |
| `Watchdog.ResetAfterSix` | RTL812xLucy/RTL812xLucy.cpp:1528-1565 | Conversely six such ticks, counted from a restart, lead to a reset. |
| `Watchdog.WarnIsStreak` | RTL812xLucy/RTL812xLucy.cpp:1533-1562 | deadlockWarn is the number of stalled ticks since the count last restarted. |
| `Watchdog.Counts` | RTL812xLucy/RTL812xLucy.cpp:1528-1565 | The driver's link flag is up exactly if the last of link-up, link-down and reset was a link-up, and its counters are the completions of the trace. |
| `Watchdog.TickMeans` | RTL812xLucy/RTL812xLucy.cpp:1528-1882 | What a tick does: only a reset takes the link down, only a scan finds completions, the count is remembered, and nothing happens exactly if the tick is not stalled. |
| `Watchdog.Restarts` | RTL812xLucy/RTL812xLucySetup.cpp:761-761 | Any other tick, a link loss, a clear and the reset itself restart the count. |
| `Watchdog.Timer.TxHangCheck` | RTL812xLucy/RTL812xLucy.cpp:1528-1565 | The check on the driver's variables; the link goes down exactly with a reset. |
| `Watchdog.Timer.TimerAction` | RTL812xLucy/RTL812xLucy.cpp:1848-1882 | The timer action; the timer is set again, and the link still up, unless it was down or a reset came. |

## Left out

- The choice of offload words and VLAN tags in outputStart: a packet's two option words are given.
- Receive checksum and VLAN metadata: packet bytes and ownership only.
- The non-mapped receive loop's descriptor re-arming: it re-arms each slot at once and is covered only as to reassembly.
- Firmware version strings, the selected bus functions' effects and delays: reads return arbitrary values and writes are recorded.
- A device address missing for part of a receive batch (RTL812xLucyVTD.cpp:486-489): such a batch is neither mapped nor refused as a whole in this model.
- The receive descriptors' buffer length and ring-end mark: constants, the mark set on the last slot only.
- The ring-index reset inside rtl812xHwConfig: it follows a clear in every use modelled here.
- Wrap-around of the 64-bit completion counter the watchdog compares: the counter is unbounded here.
- Signed overflow of the interpreter's read counter after 2^31 reads: the counter is unbounded here.
- Link handling, medium selection, power management, register programming, statistics, multicast hashing and the user client: straight-line code or tables that act through frameworks and registers outside this model.
- TxMapper.TxMapInfo.TxMapPacket: after a failure the start and count of the memory descriptor it tried are not restored, only its tag, the counter and the index, as in the source; and the null-argument checks are not modelled because a chain and a vector are always there.
- RxBuffers.LucyRxPool.InitWithCapacity: the two allocation loops are one method that appends from a given supply of packets.
- RxDriver.Driver.ProcessAll: with all 1024 descriptors finished, at most one turn of the ring is taken; what happens beyond is RxPromises.LoopGoesAround's and RxPromises.LoopNeverEnds's.
- RxDriver.Driver.RxInterruptVTD: the chip does not finish further descriptors during the call, and at most one turn of the ring is taken; the interleaved case and the loop going around are RxPromises'.
- TxPromises.ClearRestores: the DMA commands, which a clear leaves set, are not part of the state.
- TxDriver.Driver.QueuePacket: the offload words and the VLAN tag of the packet are parameters.
- TxCalls.OutputIsRun: the interface-state test and the returned status are TxDriver.Driver.OutputStart's.
- TxCalls.InterruptIsRun: the completion counter and the wake-up of the output thread are TxDriver.Driver.TxInterrupt's.
- FirmwareHalting.WriteFirmware: only programs whose backward jumps close counted loops, since others need not halt; FirmwareHalting.Interpret covers every program for any number of passes.
- EepromDriver.Master.DetectType: the strap that selects the address width is taken to agree with the part fitted.
- EepromDriver.Master.WriteWord: an interrupted erase or write counts as carried out from its start, also when polling gives up on it.
- Checksum.PrepareTSO4: works on the bytes from the IP header on, wherever the mbuf chain keeps them.
