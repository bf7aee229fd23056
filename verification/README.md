# Aevros: models and proofs

Aevros is a small x86 kernel in C. This project models the parts of it that carry real
invariants and proves them in Dafny 4.11: the TCP receive path, the TCP send window with its
retransmission timer, the memory allocators, IPv6 reassembly, the provenance log and its trace,
request/reply pairing, frame building against frame checking, the ready ring, the ELF loader and
line and disc drawing.

`dafny verify dfyconfig.toml` checks everything.

## How it is organised

Each component has a module of specification functions, on which the statements about whole
runs are proved, and a module with the source's own form: classes whose fields are the source's
tables, arrays and links, with methods and loops, proved equal to the specification step by step.

| component | specification and run theorems | in-place form |
|---|---|---|
| TCP receive path | Rapport, Lifecycle, ReceiveModel, StreamIntegrity, Delivery, StreamDelivery | ReceivePath, Conversation |
| send window, timer | SchedulerModel, SendWindow, RetransmitTimer, TimerBooks, KarnRule, ResendClock, SendReuse | Scheduler, Conversation |
| buddy allocator | BuddyGeometry, BuddyModel | BuddyAllocator |
| heap and slabs | KHeapModel, HeapProgress | KHeap |
| IPv6 reassembly | FragmentModel, Reassembly, Overlap | Fragment6 |
| provenance | TraceModel | Provenance |
| request/reply pairing | PairingModel | NetTrace |
| frames | Checksum, FrameModel, FrameCheck | Dispatch, FrameCheck |
| ready ring | RoundRobin | ReadyQueue |
| ELF loader | LoaderModel | ElfLoader |
| drawing | Raster | Raster |

Words and Bits hold machine integers and the bit operations of the C code as functions on
naturals. Sequence numbers, generations and addresses are real modulo-2^32 values. `Result`-like
outcomes stand for the source's error returns; clocks, initial sequence numbers and whether a
frame could be handed on are parameters.

## Where the code does less than it promises

Each of these has a concrete failing input or family and the exact condition for the promise.

- `buddy_init` can seed the wrong block, or none, for ranges that start at zero or above 0xE0000000
  (InitExact, InitOverrun).
- `size_to_order` never returns for totals above 2^31, and `kmalloc` hands out too little for
  sizes from 2^32 - 12 (SizeToOrderExact, KmallocSizeExact, UndersizedGrant).
- The 32-bit generation lets an old ring or old rows through when the number of claims since they
  were filled is a multiple of 2^32 (LapseExact, LapseLeaks); the statements about the receive
  path hold for every run in which that does not happen with something left behind.
- Fast retransmission does not mark its segment, so the rule of Karn's algorithm that no resent
  segment is timed can fail: exactly when the oldest segment was resent on duplicate acks and no
  expiry has marked it since (KarnExact, ResentSampleIsFast, FastRetransmitSamples).
- The close states compare in plain unsigned order, and the end of TIME_WAIT does not cancel the
  window: if we close first, a FIN outside 0x7FFFFFFF to 0xFFFFFFFE can stay behind for the next one
  (ReleaseExact, FinInherited).
- The stale-retransmit test compares in plain unsigned order, so a segment that starts past the
  wrap of the sequence numbers can be dropped as an old one while it is still ahead
  (StreamDelivery.AnyOrder, WrappedIsStale, LawNeedsNoWrap).
- The header length decides what the IPv4 checksum covers, so a changed length can go unnoticed
  (IpCorruption, LengthEscapes).
- The guard in `pick_next_task` starves tasks more than 65535 places away (FairExactly).
- Adding a task that is queued already drops everything behind it (AddKeepsAllIff).
- `elf_load_segs` loads nothing for a segment that touches the last page of the address space,
  and ignores a failed mapping (LoaderExact, FalseSuccess, WrappedSegment).

## Model

| member | source | states |
|---|---|---|
| StreamIntegrity.StreamPrefix | Networking/IPv4/Conversation/conversation.c:337-383 | Over every run, with any loss, repetition, reordering, reads, releases and reclaims, and with empty segments of any number in between, the bytes read plus the bytes in the ring are exactly the first expected_seq - (peer_isn + 1) bytes of the peer's stream, up to the first FIN; peer_isn is the one in the SYN or SYN-ACK that opened the connection. |
| StreamIntegrity.RunGood | Networking/IPv4/Conversation/conversation.c:337-387 | Every run from boot is explained by a chain of arrived segments that are adjacent modulo 2^32, end at expected_seq and concatenate to what was read and what is buffered. |
| StreamIntegrity.ReuseIsolation | Networking/IPv4/LockBox/lockbox.c:46-121 | Whatever was delivered, is buffered or is held since a slot was last claimed consists of payloads that arrived since that claim; nothing of an earlier connection gets through. |
| StreamIntegrity.TablesAgree | Networking/IPv4/Conversation/rapport.c:31-177 | In every reachable state a slot whose TCP status is not CLOSED is in use in LockBox, and when the generations agree the Inbox count equals buffered_bytes and is at most 4096. |
| StreamIntegrity.DrainComplete | Networking/WayStation/waystation.c:116-154 | When a drain stops, no held segment is next in line unless the Inbox has no room for it. |
| Delivery.ArrivalTakes | Networking/IPv4/Conversation/conversation.c:378-383 | In every reachable state of an open connection, data at expected_seq that fits moves expected_seq on by at least its length; the ring grows by it and by all it makes contiguous, and afterwards no held segment starts there unless the Inbox has no room for it. |
| Delivery.InOrderTakes | Networking/IPv4/Conversation/conversation.c:364-386 | The same of one call, from any slot whose tables agree. |
| Delivery.DrainTakes | Networking/WayStation/waystation.c:116-154 | A drain extends the ring and moves expected_seq on by exactly as much. |
| Delivery.DrainLeavesNone | Networking/WayStation/waystation.c:116-154 | When it stops, every held segment at expected_seq is one the Inbox has no room for. |
| Delivery.RowsStayDistinct | Networking/WayStation/waystation.c:37-73 | Over every run no two held segments start at the same number. |
| Delivery.EarlyExact | Networking/IPv4/Conversation/conversation.c:337-362 | Without a wrap, data off expected_seq is held exactly when it ends past it, its number is not held yet and a row is free; nothing else of the stream moves. |
| Delivery.ResetExact | Networking/IPv4/Conversation/conversation.c:364-368 | A reset ends an open connection exactly when it stands at expected_seq, and otherwise changes nothing but the peer's window. |
| Delivery.WindowFollows | Networking/IPv4/Conversation/rapport.c:179-185 | The peer's window is that of the last segment, in line or not. |
| Delivery.WindowExact | Networking/WayStation/waystation.c:156-179 | What is advertised, and no more, fits beside the bytes buffered and the bytes held. |
| StreamDelivery.AnyOrder | Networking/IPv4/Conversation/conversation.c:337-383 | For every cut of the peer's stream: after every run in which its pieces come in any order and any number of times, within the advertised window and with a row for each early one, among reads, acks, ticks and our close, the bytes read and buffered are the stream up to the first piece that has not arrived, and expected_seq stands there. This holds exactly when no piece starts past the wrap of the sequence numbers. |
| StreamDelivery.StepIn | Networking/IPv4/Conversation/conversation.c:337-383 | Each such event keeps that, and the rows hold exactly the pieces that arrived ahead. |
| StreamDelivery.DrainAll | Networking/WayStation/waystation.c:116-154 | The drain delivers every held piece up to the first missing one. |
| StreamDelivery.StaleIsBehind | Networking/IPv4/Conversation/rapport.c:281-287 | Short of the wrap the stale test tells the pieces behind from the pieces ahead. |
| StreamDelivery.WrappedIsStale | Networking/IPv4/Conversation/rapport.c:281-287 | A piece that starts past the wrap, sent before the first one, passes for an old one. |
| StreamDelivery.LawNeedsNoWrap | Networking/IPv4/Conversation/rapport.c:281-287 | The failing family: such a piece is dropped, the others arrive in order, and it is still missing although all have arrived. |
| StreamDelivery.AcceptStarts | Networking/IPv4/Conversation/rapport.c:31-43 | A connection accepted on a free slot expects the number after the peer's SYN, with nothing buffered or held. |
| StreamDelivery.SynAckStarts | Networking/IPv4/Conversation/rapport.c:206-228 | So does one we opened, once the SYN-ACK acknowledges our SYN. |
| Lifecycle.StatusIsHistory | Networking/IPv4/Conversation/rapport.c:31-228 | Over every run the TCP state is determined by who has acknowledged and closed what, and in which order; expected_seq and send_seq count what was taken and sent and one for each FIN. |
| Lifecycle.EndsExactly | Networking/IPv4/Conversation/rapport.c:64-177 | A slot is let go of exactly when an open connection ends: by a reset, by the ack of our FIN when the peer closed first, or 400 ticks after both sides were done. |
| Lifecycle.StepAgrees | Networking/IPv4/Conversation/rapport.c:31-228 | Each handler keeps the state and the history in step. |
| StreamIntegrity.LapseExact | Networking/IPv4/Inbox/inbox.c:10-21 | For every run from boot: all its connections start with an empty ring and no held segment exactly when no claim finds bytes or a row left behind under the same 32-bit generation, that is after a multiple of 2^32 claims. |
| StreamIntegrity.LapseLeaks | Networking/IPv4/Inbox/inbox.c:10-21 | The failing run from boot: one byte arrives and is not read, 2^32 claims follow, and a read on a connection for which nothing arrived returns that byte. |
| StreamIntegrity.RingComesBack | Networking/IPv4/Inbox/inbox.c:10-21 | The failing family: from any closed slot, 2^32 claims without a look at the Inbox hand its ring to the next reader. |
| ReceivePath.LockBox.FindConnection | Networking/IPv4/LockBox/lockbox.c:31-44 | Returns the first slot in use with that tuple, or the capacity. |
| ReceivePath.LockBox.Claim | Networking/IPv4/LockBox/lockbox.c:46-87 | Refuses duplicates, crowded addresses and a full table in the source's order; otherwise takes the first unused slot with an empty account and the next generation, and leaves every other slot alone. |
| ReceivePath.LockBox.CountPeer | Networking/IPv4/LockBox/lockbox.c:9-17 | The number of slots in use with that address. |
| ReceivePath.LockBox.FindUnused | Networking/IPv4/LockBox/lockbox.c:65-83 | The first slot that is not in use, or the capacity. |
| ReceivePath.LockBox.Deposit | Networking/IPv4/LockBox/lockbox.c:89-104 | Accounts the bytes exactly when the slot is in use and they fit into 4096. |
| ReceivePath.LockBox.Consume | Networking/IPv4/LockBox/lockbox.c:106-115 | Takes the bytes off the account, saturating at zero, whether or not the slot is in use. |
| ReceivePath.LockBox.Release | Networking/IPv4/LockBox/lockbox.c:117-121 | Frees the slot and nothing else. |
| ReceivePath.Inbox.ResetIfStale | Networking/IPv4/Inbox/inbox.c:10-21 | Empties the ring exactly when the generation seen differs from the slot's. |
| ReceivePath.Inbox.Deposit | Networking/IPv4/Inbox/inbox.c:23-41 | Appends the payload to the ring contents and the account, or changes nothing when LockBox refuses. |
| ReceivePath.Inbox.Append | Networking/IPv4/Inbox/inbox.c:33-39 | The byte loop writes the payload behind the ring contents, across the wrap of the 4096-byte buffer. |
| ReceivePath.Inbox.Read | Networking/IPv4/Inbox/inbox.c:43-64 | Returns the oldest min(max, count) bytes, leaves the rest in order and takes the bytes off the account. |
| ReceivePath.Inbox.Take | Networking/IPv4/Inbox/inbox.c:52-58 | The byte loop removes a prefix of the ring contents. |
| ReceivePath.Inbox.Available | Networking/IPv4/Inbox/inbox.c:66-74 | The number of bytes a reader can get, after the staleness reset. |
| ReceivePath.WayStation.ResetIfStale | Networking/WayStation/waystation.c:24-35 | Drops the held segments exactly when the slot was claimed again. |
| ReceivePath.WayStation.Hold | Networking/WayStation/waystation.c:37-73 | Keeps an out-of-order segment in the first free row unless it is empty, too long, already held or there is no row; reports success exactly when a segment with that number is held afterwards. |
| ReceivePath.WayStation.Drain | Networking/WayStation/waystation.c:116-154 | Delivers held segments that are next in line, advancing expected_seq, until none is or the Inbox refuses; returns how many rows it freed. |
| ReceivePath.WayStation.DeliverNext | Networking/WayStation/waystation.c:128-151 | One round of the drain loop: the first row that starts at expected_seq goes to the Inbox and is freed. |
| ReceivePath.WayStation.FindRow | Networking/WayStation/waystation.c:129-137 | The first held row with that sequence number, or none. |
| ReceivePath.WayStation.ReceiveWindow | Networking/WayStation/waystation.c:156-179 | Returns the specified window, which is never negative and at most 4096; what it means is WindowExact. |
| Conversation.Handler.OnNewSyn | Networking/IPv4/Conversation/conversation.c:275-284 | A SYN claims one unused slot and starts the handshake in it; a refused claim changes nothing. |
| Conversation.Handler.HandleSegment | Networking/IPv4/Conversation/conversation.c:334-387 | The step for an existing connection: the receive path takes its step, the send window takes the ack or the reset as in SendWindow, and other slots are untouched. |
| Conversation.Handler.Early | Networking/IPv4/Conversation/conversation.c:337-362 | A segment that does not start at expected_seq: its ack reaches the window if it is not ahead of send_seq, and its data is held unless it is stale or empty. |
| Conversation.Handler.TakeAck | Networking/IPv4/Conversation/conversation.c:370-376 | The ack moves the state, which may cancel the window and release the slot, and then the window. |
| Conversation.Handler.Carry | Networking/IPv4/Conversation/rapport.c:95-103 | Letting go of a slot on an ack or a reset cancels its window and releases it. |
| Conversation.Handler.TimeWaitTick | Networking/IPv4/Conversation/rapport.c:161-177 | Exactly the TIME_WAIT slots that have waited long enough are closed and released; no window changes. |
| Conversation.Handler.InOrder | Networking/IPv4/Conversation/conversation.c:364-386 | RST, ack (first the state, then the window), data and FIN of a segment that starts at expected_seq, in that order. |
| Conversation.Handler.TakeData | Networking/IPv4/Conversation/conversation.c:378-383 | Data advances expected_seq and drains held segments exactly when the Inbox takes it. |
| SendWindow.RunKeepsTiling | Networking/Scheduler/scheduler.c:61-162 | Over every run of data sends, FINs, acks within half the sequence space, timer ticks and resets, the segments in use tile [una, send_seq) modulo 2^32, oldest is the one at una, and the bytes in flight are the distance. |
| SendWindow.EventKeepsTiling | Networking/IPv4/Conversation/conversation.c:568-649 | Each send, FIN, ack and tick keeps the tiling. |
| SendWindow.AckKeepsTiling | Networking/Scheduler/scheduler.c:114-129 | A cumulative ack frees a prefix of the segments in sequence order; the rest still tiles. |
| SendWindow.AckCoversPrefix | Networking/Scheduler/scheduler.c:18-21 | Under the modular comparison an ack within half the space covers exactly the segments that end at or before it, even across a wrap. |
| SendWindow.OldestIsFirst | Networking/Scheduler/scheduler.c:40-49 | oldest is the segment at una, and none for an empty window. |
| SendWindow.InFlightIsDistance | Networking/Scheduler/scheduler.c:243-255 | The sum of the lengths in use is send_seq - una modulo 2^32. |
| SendWindow.SendFitsPeerWindow | Networking/IPv4/Conversation/rapport.c:230-239 | A data send that goes out leaves no more in flight than the peer's window. |
| SendWindow.SendExact | Networking/IPv4/Conversation/conversation.c:568-603 | Over every run data goes out exactly when it is 1 to 1460 bytes on an established connection, a window slot is free, it fits the peer's window beside what is unacknowledged and the frame could be passed on; it is then tracked at the old send_seq. |
| SendWindow.CloseExact | Networking/IPv4/Conversation/conversation.c:622-649 | Over every run a FIN goes out exactly when nothing is unacknowledged in ESTABLISHED or CLOSE_WAIT; it takes one number, which Rapport remembers. |
| Conversation.Handler.SendData | Networking/IPv4/Conversation/conversation.c:568-603 | In place: the send step, reporting exactly whether it went out. |
| Conversation.Handler.SendFin | Networking/IPv4/Conversation/conversation.c:622-649 | In place: the close step, reporting exactly whether it went out. |
| TimerBooks.TimerExact | Networking/Scheduler/scheduler.c:198-241 | Over every run a tick acts exactly when the oldest segment has waited, since it was handed over or last timed out, for the timeout of the last sample doubled once per expiry since; it resends that segment and restarts its timer and no other, or gives up when eight expiries have passed without anything newly acknowledged. |
| TimerBooks.FastExact | Networking/Scheduler/scheduler.c:164-182 | Over every run an ack resends the oldest segment exactly when it frees nothing and is the third, sixth, ... repetition of the ack before. |
| TimerBooks.SampleExact | Networking/Scheduler/scheduler.c:114-152 | Over every run an ack changes the estimate exactly when it newly acknowledges a segment that no expiry found outstanding; the sample is the time since the first such slot's segment was handed over. |
| TimerBooks.EstimateExact | Networking/Scheduler/scheduler.c:131-152 | To within rounding a sample moves SRTT an eighth and RTTVAR a quarter of the way, the first one starts them, and RTO is the clamped 32-bit SRTT + 4 RTTVAR. |
| TimerBooks.RunAgrees | Networking/Scheduler/scheduler.c:61-241 | Every run keeps the fields in step with books kept from the calls alone. |
| ResendClock.ResendSpacing | Networking/Scheduler/scheduler.c:198-241 | Over every run of a connection with nothing newly acknowledged, the first expiry comes no sooner than the RTO after the timer was started, and the (k+1)-th, the give-up included, no sooner than min(1000, rto0 * 2^k) after the k-th. |
| ResendClock.GivesUpNoSooner | Networking/Scheduler/scheduler.c:217-230 | On a clock that does not go back, giving up takes at least the sum of the nine waits. |
| ResendClock.InitialWaits | Networking/Scheduler/scheduler.c:94-95 | With the initial RTO that is 6500 ticks. |
| RetransmitTimer.EstimatorBounds | Networking/Scheduler/scheduler.c:131-152 | Over every run, SRTT lies between the smallest and largest sample since the last cancel, RTTVAR is at most the largest, and RTO is in [20, 1000] whenever a segment is outstanding, 32-bit wrap included. |
| RetransmitTimer.ExpiredNeverSamples | Networking/Scheduler/scheduler.c:232-239 | A segment that was outstanding at a timer expiry never supplies a sample. |
| RetransmitTimer.FastRetransmitSamples | Networking/Scheduler/scheduler.c:164-177 | The failing run: after three duplicate acks the segment in slot 0 has been sent twice, and the ack that covers it takes its sample from it. |
| RetransmitTimer.ResentSampleIsFast | Networking/Scheduler/scheduler.c:114-125 | Over every run, of the segments that supply a sample those that were sent again are exactly those resent on duplicate acks. |
| KarnRule.KarnExact | Networking/Scheduler/scheduler.c:100-183 | Over every run of a connection with acks within half the sequence space: some ack can take its sample from a segment that was sent twice exactly when the oldest segment was resent on duplicate acks and no timer expiry has marked it since. |
| KarnRule.StepKeepsKarn | Networking/Scheduler/scheduler.c:61-241 | Every event of the connection keeps the tiling, the marks, and that a segment resent on duplicate acks stays the oldest while it is in flight. |
| KarnRule.OldestAlone | Networking/Scheduler/scheduler.c:114-129 | The ack of exactly the oldest segment is within half the space and takes its sample from it, unless it is marked. |
| RetransmitTimer.Backoff | Networking/Scheduler/scheduler.c:198-241 | After k expiries with nothing newly acknowledged, whatever is tracked or acked in between, RTO is min(1000, rto0 * 2^k) and k is at most eight. |
| RetransmitTimer.NinthExpiryGivesUp | Networking/Scheduler/scheduler.c:198-241 | In every run of the connection with nothing newly acknowledged, each of the first eight expiries resends the oldest segment and doubles the RTO, and the ninth empties the window and closes the connection. |
| Scheduler.Timers.FindOldest | Networking/Scheduler/scheduler.c:40-49 | The scan returns the segment in use that no other precedes. |
| Scheduler.Timers.Track | Networking/Scheduler/scheduler.c:61-98 | Stores the segment in the first free row, restarting the timer as the source does; refuses exactly bad lengths and a full window. |
| Scheduler.Timers.Ack | Networking/Scheduler/scheduler.c:100-183 | Frees covered segments, samples, restarts or stops the timer, counts duplicates, and calls resend for the oldest segment exactly on the third, for that connection only. |
| Scheduler.Timers.FreeCovered | Networking/Scheduler/scheduler.c:110-129 | The scan frees exactly what the ack covers and finds the slot that supplies the sample. |
| Scheduler.Timers.Tick | Networking/Scheduler/scheduler.c:198-241 | Every window takes its timer step; exactly those that give up have their connection reset and their slot released; resend is called for the expired ones in order. |
| Scheduler.Timers.TickSlot | Networking/Scheduler/scheduler.c:204-239 | The same for one window, leaving the others alone. |
| Scheduler.Timers.TickOne | Networking/Scheduler/scheduler.c:204-239 | One window's step: resend with doubled RTO, or give up; reports the slot sent again. |
| Scheduler.Timers.BytesInFlight | Networking/Scheduler/scheduler.c:243-255 | The clamped sum of the lengths in use. |
| Scheduler.Timers.FreeSlots | Networking/Scheduler/scheduler.c:257-269 | Positive exactly when a slot is free, and four exactly when all are. |
| SendReuse.ReleaseExact | Networking/IPv4/Conversation/rapport.c:82-93 | A connection that we close first, from ESTABLISHED with nothing in flight, leaves an empty window whenever its slot is let go of, however it goes on, exactly when its FIN has a number from 0x7FFFFFFF to 0xFFFFFFFE. |
| SendReuse.LivesIsolated | Networking/IPv4/Conversation/rapport.c:161-177 | Over every run of connections on one slot, opened by either side with the SYN or SYN-ACK tracked, where those that we close first have such a FIN: the window tiles up to the next number to be sent and is empty whenever the slot is closed, so that no connection inherits a segment. |
| SendReuse.OpeningTiled | Networking/IPv4/Conversation/conversation.c:556-566 | A tracked SYN-ACK or SYN on an empty window tiles from our initial sequence number. |
| SendReuse.WithinKeepsLife | Networking/IPv4/Conversation/rapport.c:64-177 | Every event of a connection keeps that, also while our SYN is unanswered and send_seq is not yet set. |
| SendReuse.FinInherited | Networking/IPv4/Conversation/rapport.c:161-177 | For every other FIN, a run in which an ack passes the unsigned test without covering the FIN, TIME_WAIT ends, and the next connection starts with the old FIN in its window. |
| SendReuse.FinTestsAgree | Networking/IPv4/Conversation/rapport.c:82-93 | For a FIN in that range, an ack within half the space that passes the unsigned test covers the FIN modulo 2^32. |
| BuddyModel.FullCoalescing | kernel/Memory/buddy.c:156-207 | After every history no block and its buddy are both free, and a history that handed everything back ends in the state it started from: one seeded block. |
| BuddyModel.BuddyPartition | kernel/Memory/buddy.c:87-207 | After every history free and live blocks are size-aligned, disjoint and tile the seed, and their bytes add up to it. |
| BuddyModel.RunKeeps | kernel/Memory/buddy.c:87-207 | Every run of requests and matching releases keeps partition, coalescing and byte count. |
| BuddyModel.AllocFailsIff | kernel/Memory/buddy.c:87-119 | An allocation of a valid order fails exactly when no block of that order or higher is free. |
| BuddyModel.AllocReturnsFreeMemory | kernel/Memory/buddy.c:87-119 | What is returned is aligned, inside the seed and disjoint from everything live. |
| BuddyModel.AllocExact | kernel/Memory/buddy.c:87-119 | An allocation takes the low end of a free block of the least sufficient order and frees its right halves again; every other free block stays. |
| BuddyModel.AlignmentTest | kernel/Memory/buddy.c:163-167 | The mask test of buddy_free accepts exactly the size-aligned pointers. |
| BuddyModel.BuddyBits | kernel/Memory/buddy.c:171-200 | address ^ size is the other half of the parent, and address & ~size is the parent. |
| BuddyGeometry.CoalescedTilingIsSeed | kernel/Memory/buddy.c:156-207 | A coalesced tiling of the seed by free blocks alone is the seed itself. |
| BuddyGeometry.NoSmallBlock | kernel/Memory/buddy.c:156-207 | In such a tiling no block is smaller than the seed: an infinite-descent argument over buddies. |
| BuddyGeometry.SplitKeepsTiling | kernel/Memory/buddy.c:108-114 | Splitting a block into its halves keeps the tiling. |
| BuddyGeometry.MergeKeepsTiling | kernel/Memory/buddy.c:195-203 | Merging a block with its buddy keeps the tiling. |
| BuddyAllocator.InitExact | kernel/Memory/buddy.c:25-60 | buddy_init seeds the largest aligned block that fits exactly for ranges that start above zero and at most at 0xE0000000, or whose first whole page ends past the range and that do not hold 0xF0000000. |
| BuddyAllocator.FitsIff | kernel/Memory/buddy.c:25-60 | Some block fits a range exactly when its first whole page does. |
| BuddyAllocator.InitOverrun | kernel/Memory/buddy.c:25-60 | A range in the failing family, where the rounding wraps and the listed block runs past the end. |
| BuddyAllocator.Buddy.constructor | kernel/Memory/buddy.c:25-60 | Start-up lists the seeded block and nothing else. |
| BuddyAllocator.Buddy.AddToList | kernel/Memory/buddy.c:121-131 | Pushes a block on the linked list of its order, if it is in range. |
| BuddyAllocator.Buddy.Alloc | kernel/Memory/buddy.c:87-119 | On the linked lists: takes the head of the first non-empty order, splits it down, and returns zero exactly when the specification has no block. |
| BuddyAllocator.Buddy.Split | kernel/Memory/buddy.c:108-114 | The split loop lists one upper half per order. |
| BuddyAllocator.Buddy.Free | kernel/Memory/buddy.c:156-207 | Merges a live block upwards and forgets it; bad orders and bad pointers change nothing. |
| BuddyAllocator.Buddy.Merge | kernel/Memory/buddy.c:169-206 | The merge loop climbs while the buddy is listed. |
| BuddyAllocator.Buddy.Unlink | kernel/Memory/buddy.c:176-198 | Searches the list of the order for the buddy and takes it out wherever it stands; reports exactly whether it was there. |
| BuddyAllocator.Buddy.FreeMemory | kernel/Memory/buddy.c:214-235 | The sum over all lists is the number of free bytes, without 32-bit overflow. |
| KHeapModel.HeapSafety | kernel/Memory/kheap.c:30-79 | After every run from start-up of kmalloc, kfree of live pointers and stores into live regions, with other code using the buddy allocator directly, live regions are disjoint from each other and from the blocks others hold and lie inside their slot or block, and kfree gives each pointer back to the cache or order it came from. |
| KHeapModel.HeapRunKeeps | kernel/Memory/kheap.c:30-79 | The heap invariant behind it is kept by every such run, allocations, frees and stores of the other clients of the buddy allocator included. |
| KHeapModel.OutsideApart | kernel/Memory/kheap.c:30-53 | A block held directly is apart from every live region and its header. |
| KHeapModel.KfreeRoutes | kernel/Memory/kheap.c:55-79 | kfree of a live pointer does exactly what its source requires: clears its slot, or frees its block at its order. |
| KHeapModel.RouteFinds | kernel/Memory/kheap.c:60-72 | The page tests recognise slab pointers as their cache and buddy pointers as none. |
| KHeapModel.GrantsApart | kernel/Memory/kheap.c:30-53 | Two live regions never meet. |
| KHeapModel.PokeKeeps | kernel/Memory/kheap.c:49-52 | A store inside a live region never reaches a live block header. |
| KHeapModel.SizeToOrderExact | kernel/Memory/kheap.c:17-28 | The doubling loop returns exactly for totals up to 2^31, and then the least order that suffices. |
| KHeapModel.KmallocSizeExact | kernel/Memory/kheap.c:30-53 | A granted region holds the request exactly for sizes below 2^32 - 12; sizes from 0x7FFFFFF5 to there never return. |
| KHeapModel.UndersizedGrant | kernel/Memory/kheap.c:41-47 | The counterexample: a request of 2^32 - 1 bytes is granted one page. |
| KHeapModel.SlabInitInv | kernel/Memory/slab.c:20-37 | Start-up with three pages establishes the heap invariant. |
| KHeapModel.StartUpSucceeds | kernel/Memory/slab.c:20-37 | Start-up finds its three pages in every seeded region of four pages or more. |
| KHeapModel.FreeSlotIs | kernel/Memory/slab.c:39-50 | The slot taken is the lowest clear bit, or none when all 32 are set. |
| KHeapModel.SetSlotBits | kernel/Memory/slab.c:47-47 | Taking a slot sets its bit and no other. |
| KHeapModel.SlabFreeBits | kernel/Memory/slab.c:52-59 | Freeing a slot address clears its bit and no other. |
| HeapProgress.SmallExact | kernel/Memory/kheap.c:30-39 | After every run from start-up a request for up to 128 bytes is refused exactly when all 32 slots of the smallest fitting cache are live, and otherwise gets the lowest free one. |
| HeapProgress.LargeExact | kernel/Memory/kheap.c:41-52 | A larger request is refused exactly when no free block suffices, and otherwise gets a block of the least sufficient order, cut from the low end of a best-fitting free one. |
| HeapProgress.RunNoLeak | kernel/Memory/slab.c:39-59 | Over every run no slot stays marked that is not live. |
| KHeap.SizeToOrder | kernel/Memory/kheap.c:17-28 | The loop returns the least sufficient order. |
| KHeap.SlabInitReady | kernel/Memory/slab.c:32-37 | Start-up on an intact buddy allocator leaves an intact heap whose pages are the three newest live blocks. |
| KHeap.Kernel.constructor | kernel/Memory/slab.c:32-37 | slab_init_all in place: three buddy pages become the caches. |
| KHeap.Kernel.Kmalloc | kernel/Memory/kheap.c:30-53 | In place on caches, headers and linked buddy lists: grants a slot or a block as specified, or returns zero and changes nothing. |
| KHeap.Kernel.Kfree | kernel/Memory/kheap.c:55-79 | In place: returns the pointer to its source and drops it from the live regions; NULL changes nothing. |
| KHeap.Kernel.SlabAlloc | kernel/Memory/slab.c:39-50 | Takes the lowest free slot of a cache, or returns zero. |
| KHeap.Kernel.BuddyAlloc | kernel/Memory/kheap.c:41-52 | Takes a block of the least sufficient order and writes its header, or returns zero. |
| KHeap.Kernel.DirectAlloc | GUI/Framebuffer/framebuffer.c:130-135 | Kernel code that takes a block directly keeps the heap intact. |
| KHeap.Kernel.DirectFree | kernel/selftest.c:49-53 | So does giving it back. |
| Reassembly.AnyOrder | Networking/IPv6/Fragment6/fragment6.c:57-176 | A payload of at most 2048 bytes cut into non-overlapping pieces completes exactly once, on the last arrival, with payload and next header, for every order and every interleaving with up to three other packets and with sweeps that do not time it out. |
| Reassembly.EveryPermutation | Networking/IPv6/Fragment6/fragment6.c:57-176 | In particular, the pieces delivered in any permutation put the payload together again. |
| Reassembly.PieceOnWire | Networking/IPv6/Fragment6/fragment6.c:57-176 | Each arrival in these runs is one call on the bytes of a piece. |
| Reassembly.Completes | Networking/IPv6/Fragment6/fragment6.c:57-176 | The same from any intermediate state of the run. |
| Reassembly.CompleteIff | Networking/IPv6/Fragment6/fragment6.c:161-169 | A slot is complete exactly when every piece is in, and then its buffer is the payload. |
| Reassembly.MineStep | Networking/IPv6/Fragment6/fragment6.c:93-176 | A new piece is taken in without clash; the packet comes out exactly with the last one. |
| Reassembly.ForeignStep | Networking/IPv6/Fragment6/fragment6.c:57-176 | Fragments of other packets, malformed ones included, do not disturb this one. |
| Reassembly.RoomForOne | Networking/IPv6/Fragment6/fragment6.c:93-107 | With at most three other packets there is a free slot. |
| FragmentModel.DeliveredBytes | Networking/IPv6/Fragment6/fragment6.c:93-176 | For arbitrary fragments and any history: each byte of a delivered packet was written by exactly one fragment with the same source, destination and id since its slot was opened. |
| Overlap.DeliveredFromAll | Networking/IPv6/Fragment6/fragment6.c:57-191 | For arbitrary fragments and any history: a delivered packet is made of every well-formed fragment of its key that arrived since its slot was opened, and of no others; they are pairwise apart, agree on the next header and give each byte once, and no sweep in between came more than 500 ticks after the first. |
| Overlap.ClashForgets | Networking/IPv6/Fragment6/fragment6.c:119-134 | Of two arrivals of one key that overlap or disagree on the next header, the earlier one is in no packet delivered at or after the later one (RFC 5722). |
| Overlap.ClashFrees | Networking/IPv6/Fragment6/fragment6.c:84-159 | After a fragment that overlaps its slot, disagrees on the next header, is a second final one or is too long, no slot has its key and nothing is delivered. |
| Overlap.RunSince | Networking/IPv6/Fragment6/fragment6.c:57-191 | Every run keeps that each slot in use has taken all fragments of its key since it was opened, at the time it remembers. |
| FragmentModel.CompleteIsWrittenOnce | Networking/IPv6/Fragment6/fragment6.c:161-169 | In a complete slot each byte below the total has exactly one writer. |
| FragmentModel.WatchKeepsLogs | Networking/IPv6/Fragment6/fragment6.c:57-191 | Every run of fragments and sweeps keeps the log of writers right. |
| FragmentModel.WrittenLogged | Networking/IPv6/Fragment6/fragment6.c:136-159 | Taking in a fragment that does not overlap extends the log and nothing else. |
| FragmentModel.ParseEncode | Networking/IPv6/Fragment6/fragment6.c:66-75 | The fragment header is read back as it was encoded. |
| FragmentModel.EncodedArrives | Networking/IPv6/Fragment6/fragment6.c:57-176 | Receiving the bytes of an encoded fragment is receiving the fragment. |
| Fragment6.Reassembler.RangeOverlaps | Networking/IPv6/Fragment6/fragment6.c:35-41 | True exactly when some unit of the range is marked. |
| Fragment6.Reassembler.AllSet | Networking/IPv6/Fragment6/fragment6.c:164-167 | True exactly when the first n units are all marked. |
| Fragment6.Reassembler.MarkUnits | Networking/IPv6/Fragment6/fragment6.c:145-146 | The bitmap loop marks the units of the range and no other. |
| Fragment6.Reassembler.ClearUnits | Networking/IPv6/Fragment6/fragment6.c:113-113 | Opening a slot clears its units and no other slot's. |
| Fragment6.Reassembler.CopyIn | Networking/IPv6/Fragment6/fragment6.c:144-144 | The payload lands at its offset; every other byte stays. |
| Fragment6.Reassembler.CopyOut | Networking/IPv6/Fragment6/fragment6.c:169-170 | The output is the first n bytes of the slot. |
| Fragment6.Reassembler.Find | Networking/IPv6/Fragment6/fragment6.c:43-50 | The first slot in use with the key, or none. |
| Fragment6.Reassembler.Close | Networking/IPv6/Fragment6/fragment6.c:52-55 | Aborting frees the slot and keeps the rest. |
| Fragment6.Reassembler.Absorb | Networking/IPv6/Fragment6/fragment6.c:119-175 | Clash, write, second final fragment and completeness, on bitmap and buffer. |
| Fragment6.Reassembler.Finish | Networking/IPv6/Fragment6/fragment6.c:161-175 | Delivers and frees exactly when nothing is missing. |
| Fragment6.Reassembler.Receive | Networking/IPv6/Fragment6/fragment6.c:77-176 | The step after decoding, on the arrays, with its refusals, equals the specification. |
| Fragment6.Reassembler.ReceiveBytes | Networking/IPv6/Fragment6/fragment6.c:57-176 | The whole call from the header bytes on: a truncated header is dropped, the fields are decoded, and the fragment is taken in. |
| Fragment6.Reassembler.MarkUnit | Networking/IPv6/Fragment6/fragment6.c:30-33 | bit_set marks one unit and no other. |
| Fragment6.Reassembler.Sweep | Networking/IPv6/Fragment6/fragment6.c:178-191 | Frees exactly the slots in use that are older than the timeout. |
| TraceModel.TraceIsReachability | Provenance/provenance.c:235-290 | The trace holds each record whose from-end is reachable from the start exactly once, in non-decreasing BFS distance. |
| TraceModel.TraceLength | Provenance/provenance.c:235-290 | It is never longer than the log. |
| TraceModel.BfsFinishes | Provenance/provenance.c:255-287 | The queue holds each entity once, level by level, and ends when every reachable one has been expanded. |
| Provenance.Log.Store | Provenance/provenance.c:47-71 | Storing appends to the history; ids count up and wrap, and the ring stays right across the wrap. |
| Provenance.Log.NextCell | Provenance/provenance.c:47-60 | The next cell is a new one until the ring is full and then the oldest, across the id wrap; the counts of kept and lost records follow. |
| Provenance.Log.Snapshot | Provenance/provenance.c:137-153 | A snapshot is exactly the last min(n, 256) records, oldest first. |
| Provenance.Log.Trace | Provenance/provenance.c:235-290 | Over that snapshot: the full answer, or its prefix when max_results is smaller. |
| Provenance.Search | Provenance/provenance.c:252-289 | The loop over queue and visited arrays of 257 entries; the bound never skips an entity. |
| Provenance.Scan | Provenance/provenance.c:259-286 | The inner loop takes every matching record on behalf of one entity. |
| Provenance.Contains | Provenance/provenance.c:271-279 | The visited scan is membership. |
| PairingModel.PairingIsMaximum | Networking/NetTrace/net_trace.c:30-92 | No set of disjoint matching pairs is larger than the greedy pairing. |
| PairingModel.FlowYieldsMinimum | Networking/NetTrace/net_trace.c:30-92 | Each flow yields as many pairs as its smaller side has events. |
| PairingModel.PairingSound | Networking/NetTrace/net_trace.c:8-23 | Every event is in at most one pair, and pairs are opposite directions and reversed endpoints of one protocol. |
| PairingModel.PairingGreedy | Networking/NetTrace/net_trace.c:73-91 | No two open events match each other. |
| PairingModel.TakesEarliest | Networking/NetTrace/net_trace.c:73-91 | A reply takes the earliest request still open when it arrived, and none only if there is none. |
| PairingModel.PairingStable | Networking/NetTrace/net_trace.c:30-92 | Later events do not change earlier pairs. |
| PairingModel.RelatedIsInvolution | Networking/NetTrace/net_trace.c:154-184 | With distinct non-zero ids, find_related of find_related is the event itself for paired events, and finds nothing for unpaired ones. |
| NetTrace.Tracer.Rebuild | Networking/NetTrace/net_trace.c:30-108 | The tables hold the pairing of the usable events and each status by its meaning: answered exactly when some later event is the reply, otherwise timed out or pending by age unless sent to a group; the table of ids is the one that RelatedIsInvolution is about. |
| NetTrace.Tracer.AddEvent | Networking/NetTrace/net_trace.c:44-91 | One event is entered and paired. |
| NetTrace.Tracer.FindOpen | Networking/NetTrace/net_trace.c:73-91 | The inner scan finds the earliest open match. |
| NetTrace.Tracer.SetStatus | Networking/NetTrace/net_trace.c:94-107 | Statuses follow from claims, direction and age. |
| NetTrace.StatusOfMeans | Networking/NetTrace/net_trace.c:94-107 | Answered exactly for a sent event that is claimed; else timed out or pending by an age of 500 ticks, unless it went to a group; received events have none. |
| NetTrace.ClaimedIsReplied | Networking/NetTrace/net_trace.c:73-91 | An event is claimed exactly when a later one is its reply. |
| NetTrace.Tracer.FindEvent | Networking/NetTrace/net_trace.c:154-163 | The first event with the id, or -1. |
| NetTrace.Tracer.FindRelated | Networking/NetTrace/net_trace.c:165-184 | The partner of the event with the id, or -1. |
| FrameModel.FrameRoundTrip | Networking/IPv4/Conversation/conversation.c:422-541 | Every frame built for sensible flags and a payload of at most 1460 bytes, odd lengths and trailing padding included, passes both checks and parses back to the same ports, numbers, flags, window and payload. |
| FrameModel.IpAccepted | Networking/IPv4/Compass/compass.c:35-74 | The IPv4 header built is accepted. |
| FrameCheck.IpAcceptIff | Networking/IPv4/Compass/compass.c:35-74 | compass_check accepts exactly version 4, a header of five words or more within the total length, the total length within the packet, no fragment, and a header whose words sum to a positive multiple of 65535; it says bad checksum exactly when only the last fails. |
| FrameCheck.TcpAcceptIff | Networking/IPv4/Conversation/conversation.c:167-188 | conversation_check accepts exactly a data offset of five words or more within the segment, flags that are not empty and not SYN with FIN, and such a sum with the pseudo header; bad checksum exactly when only that fails. |
| FrameCheck.IpCorruption | Networking/IPv4/Compass/compass.c:19-33 | With one word of an accepted header replaced and its length kept, the packet is refused if the words differ modulo 65535, and the checksum holds if they do not. |
| FrameCheck.TcpCorruption | Networking/IPv4/Conversation/conversation.c:37-58 | The same for any word of an accepted segment, an odd last byte included. |
| FrameCheck.BlindSpot | Networking/IPv4/Compass/compass.c:19-33 | Two different words agree modulo 65535 only as 0 and 0xFFFF. |
| FrameCheck.LengthEscapes | Networking/IPv4/Compass/compass.c:40-71 | A changed header length can go unnoticed: a packet accepted with six words of header and with five. |
| FrameCheck.CheckIp | Networking/IPv4/Compass/compass.c:35-74 | Computes the verdict with checksum_ok; accepts exactly well-formed headers that sum. |
| FrameCheck.CheckTcp | Networking/IPv4/Conversation/conversation.c:167-188 | Computes the verdict with checksum_ok; accepts exactly well-formed segments that sum. |
| FrameModel.TcpAccepted | Networking/IPv4/Conversation/conversation.c:167-188 | The TCP segment built is accepted. |
| FrameModel.TcpParses | Networking/IPv4/Conversation/conversation.c:485-514 | Its fields and payload read back. |
| FrameModel.FilledIn | Networking/IPv4/Conversation/conversation.c:472-539 | Filling the complement into a zeroed checksum field makes the whole sum fold to 0xFFFF. |
| Checksum.FoldCongruent | Networking/IPv4/Conversation/conversation.c:55-57 | Folding keeps the sum modulo 65535 (RFC 1071). |
| Checksum.FoldsToOnes | Networking/IPv4/Compass/compass.c:19-33 | The test accepts exactly the positive multiples of 65535. |
| Checksum.ComplementChecks | Networking/IPv4/Conversation/conversation.c:478-483 | A sum plus the complement of its fold passes the test. |
| Checksum.SumConcat | Networking/IPv4/Conversation/conversation.c:37-58 | Sums of even-length parts add up. |
| Checksum.SumWords | Networking/IPv4/Conversation/conversation.c:37-58 | The loop adds 16-bit words in network order, a trailing odd byte as the high half. |
| Checksum.FoldSum | Networking/IPv4/Compass/compass.c:26-32 | The loop folds to the specified value. |
| Dispatch.Dispatcher.Dispatch | Networking/IPv4/Conversation/conversation.c:422-554 | Refuses long payloads, senseless flags, an unused slot and a missing route and leaves the frame alone; otherwise the frame buffer holds the encoded frame, and it is passed on exactly when the next hop has a MAC and the pass is granted. |
| Dispatch.Dispatcher.Build | Networking/IPv4/Conversation/conversation.c:447-541 | The buffer is filled with the whole frame. |
| Dispatch.Dispatcher.FillIp | Networking/IPv4/Conversation/conversation.c:453-483 | The IPv4 header with its checksum lands in place; the rest of the buffer stays. |
| Dispatch.Dispatcher.FillTcp | Networking/IPv4/Conversation/conversation.c:485-539 | The TCP header, payload and checksum land in place. |
| Dispatch.IpChecksumOk | Networking/IPv4/Compass/compass.c:19-33 | Accepts exactly headers whose word sum is a positive multiple of 65535. |
| Dispatch.TcpChecksumOk | Networking/IPv4/Conversation/conversation.c:37-58 | Accepts exactly segments whose sum with the pseudo header folds to 0xFFFF, and the sum never leaves 32 bits. |
| RoundRobin.FairExactly | kernel/Process/task.c:261-280 | In a ring of fixed membership a task that stays ready runs within d calls of schedule, for all behaviour of the others, exactly when its distance d is at most 0xFFFF. |
| RoundRobin.StarvesBeyondGuard | kernel/Process/task.c:487-500 | The failing family: beyond the guard, when only that task is ready, the current one keeps the processor for ever. |
| RoundRobin.CallBringsCloser | kernel/Process/task.c:478-506 | One call runs the waiting task or brings it strictly closer. |
| RoundRobin.FirstReady | kernel/Process/task.c:487-500 | The least distance at which a task is ready, within the guard, or none. |
| ReadyQueue.AddKeepsAllIff | kernel/Process/task.c:418-440 | Adding keeps a simple cycle, and keeps every queued task exactly when the task was not queued or was the last. |
| ReadyQueue.Queue.AddReady | kernel/Process/task.c:418-440 | On the links: the queue is one simple cycle again, with the task at its tail and READY. |
| ReadyQueue.Queue.RemoveReady | kernel/Process/task.c:442-476 | On the links: the queue is one simple cycle without the task, which is BLOCKED and keeps its own link; an empty queue changes nothing. |
| ReadyQueue.Queue.Unlink | kernel/Process/task.c:467-473 | The task in front inherits the link, and the head moves if it was the head. |
| ReadyQueue.Queue.FindBefore | kernel/Process/task.c:458-465 | The search ends in front of the task exactly when it is queued. |
| ReadyQueue.Queue.PickNext | kernel/Process/task.c:478-506 | For any links: returns the first ready task other than the current one along the links, up to the guard, a null link or the start; failing that the current task if ready. |
| ReadyQueue.Queue.PickIsChosen | kernel/Process/task.c:478-506 | On an intact ring that is the first ready task after the current one in cyclic order, also when the current one has left the queue. |
| ReadyQueue.Queue.Schedule | kernel/Process/task.c:261-280 | The chosen task becomes current and RUNNING, the previous one READY if it was RUNNING, and nobody else changes. |
| LoaderModel.LoaderExact | kernel/ELF/elf.c:29-97 | For disjoint segments on unmapped pages: loading reports success and leaves file bytes where each segment has them and zero elsewhere in its pages, exactly when no segment reaches the last page of the address space and the free frames cover the pages and their page tables. |
| LoaderModel.LoadsRight | kernel/ELF/elf.c:29-97 | Under that condition, also on mapped pages; other pages and frames in use keep their bytes. |
| LoaderModel.LoadsWrong | kernel/ELF/elf.c:45-55 | Otherwise it fails, or reports success with a page missing. |
| LoaderModel.EnoughFrames | kernel/ELF/elf.c:51-93 | With frames enough every page of a run over distinct pages is mapped and right. |
| LoaderModel.TooFewFrames | kernel/ELF/elf.c:53-58 | With too few, a run that reports success has not mapped its last page, because the result of map_page_in_directory is not looked at. |
| LoaderModel.FalseSuccess | kernel/ELF/elf.c:53-58 | The counterexample: one page, one frame, no page table. |
| LoaderModel.TopNeverLoaded | kernel/ELF/elf.c:45-51 | The last page of the address space is never loaded. |
| LoaderModel.WrappedSegment | kernel/ELF/elf.c:46-51 | A segment that touches it has its end wrapped to zero and loads nothing. |
| LoaderModel.AlignMask | kernel/ELF/elf.h:14-18 | The page masks round down to a multiple of 4096. |
| ElfLoader.AddressSpace.AllocFrame | kernel/Memory/pmm.c:29-35 | Pops the frame stack; zero exactly when it is empty. |
| ElfLoader.AddressSpace.MapInDirectory | kernel/Paging/paging.c:214-258 | Maps the page, with a new page table where there is none; maps nothing when that finds no frame. |
| ElfLoader.AddressSpace.FillPage | kernel/ELF/elf.c:79-90 | The two byte loops leave the file bytes at their place and zero elsewhere. |
| ElfLoader.AddressSpace.LoadOne | kernel/ELF/elf.c:53-92 | One page, for every alignment of the segment start. |
| ElfLoader.AddressSpace.LoadSegment | kernel/ELF/elf.c:45-93 | The page loop loads the segment's pages in order or stops at the first missing frame. |
| ElfLoader.AddressSpace.LoadSegs | kernel/ELF/elf.c:29-97 | The whole load equals the specified run; a zero directory is refused. |
| Raster.LineExact | GUI/Algo/algo.c:9-38 | The line starts at one end, is at the other after exactly max(abs(dx), abs(dy)) steps and not before, and each point is within half a pixel of the ideal line, in all octants. |
| Raster.ArrivesExactly | GUI/Algo/algo.c:22-24 | The exit test holds exactly at the last step. |
| Raster.HalfPixel | GUI/Algo/algo.c:26-36 | The rounded minor coordinate is within half of the exact one. |
| Raster.ErrorPins | GUI/Algo/algo.c:17-36 | Any error term kept within one major step pins the minor coordinate to the nearest integer. |
| Raster.TrackStep | GUI/Algo/algo.c:26-36 | One round keeps the error term in its half-open range, in both kinds of octant. |
| Raster.ErrorFits | GUI/Algo/algo.c:26-36 | The error term fits an int before and after each update. |
| Raster.Canvas.Line | GUI/Algo/algo.c:9-38 | The loop plots exactly the specified points in order and stops. |
| Raster.Canvas.Span | GUI/Algo/algo.c:86-90 | The loop finds the integer square root. |
| Raster.Canvas.FillDisc | GUI/Algo/algo.c:82-93 | Plots exactly the lattice points with (x-cx)^2 + (y-cy)^2 <= r^2, each once; a negative radius plots nothing. |
| Raster.RowOfDisc | GUI/Algo/algo.c:84-91 | A point of a row is in the disc exactly when it is within the row's span. |

## Left out

- Hardware: port I/O, interrupts, descriptor tables, the context switch and page-table bits; the
  loader sees a page directory as a set of page tables and a map from pages to frames, and the
  kernel's own temporary mappings are taken to succeed.
- Screen output, shell, windows, reports and counters; `fb_put_pixel_rgb` is a log of the points
  written, without clipping and colour, and `fb_circle` and `fb_rect` are not modelled.
- Data after a FIN and a FIN whose data the Inbox refused: the stream statement stops at the
  first FIN.
- SYN cookies, the initial sequence number lottery and hashes: their values are parameters.
- The bytes of the frames kept for retransmission, and whether a call of `resend` reaches the wire.
- `provenance_record_once`, the find functions of provenance.c, IPv4 routing, the IPv6 TCP twins,
  page-directory cloning, fork, exec, the file system, rate limiters and the observation tables:
  easy table invariants, copies of what is modelled, or mostly plumbing.
- `remove_from_list` on its own: the source calls it on the head of a list only, which is a step of
  `buddy_alloc` here.
- Memory as bytes under the free lists: the links of the buddy allocator are a map from block
  addresses to block addresses, and slab and buddy memory is not one byte array.
- BuddyAllocator.Buddy.Free: requires that a pointer which passes its tests is live; the source
  cannot tell, and a second free would list the block twice.
- KHeap.Kernel.Kfree: requires NULL or a live pointer, for the same reason.
- KHeap.SizeToOrder: requires a total of at most 2^31, because the loop does not end for others
  (KHeapModel.SizeToOrderExact).
- KHeap.Kernel.Kmalloc: requires a size of at most 0x7FFFFFF4; larger ones hang or are granted too
  little (KHeapModel.KmallocSizeExact covers every size).
- KHeap.Kernel.BuddyAlloc: requires the same, as a part of it.
- KHeap.Kernel.DirectFree: requires a block that is held directly; freeing anything else would list
  it twice.
- KHeap.Kernel.constructor: requires the three pages of start-up; the source prints a message and
  goes on with address zero when one is missing.
- ReadyQueue.Queue.Schedule: requires that the search starts on the ring; a current task that left
  the queue and whose successor left it too is covered by ReadyQueue.Queue.PickNext only, where
  the walk may stay on stale links.
- ElfLoader.AddressSpace.LoadSegs: requires the file bytes of each segment to lie in the image,
  which the source does not check, and no zero address on the frame stack.
- Raster.Canvas.Line: for |dx| <= |dy| requires |dx| + |dy| of at most 2^31 + 1, so that no step
  leaves the range of an int.
- Raster.ErrorFits: the same bound; some steeper lines stay in range beyond it.
- Raster.Canvas.FillDisc: requires a radius of at most 46339, so that every square fits an int.
- StreamDelivery.AnyOrder: pieces of at most 1460 bytes, as only those are held; a reset, a FIN of
  the peer and giving up end the runs it is about.
- FrameCheck.CheckIp: requires a length of 16 bits, the type of the source's parameter.
- FrameCheck.CheckTcp: requires the same.
- RoundRobin.FairExactly: the ring has a fixed membership; tasks may block and wake between calls.
