# A verified model of the VSF framework core

VSF is a C framework for small controllers: an event kernel with state machines, a buffer manager, byte
streams, timers, a USB device stack and a TCP/IP stack. This project models the parts of it whose
correctness depends on many functions at once, and proves what they promise over every run.

How it is arranged:

- **Buffer manager.** `Heap.dfy` describes the arena as blocks in address order and what malloc and free do
  to it; `BufMgr.dfy` is the code, two size-ordered lists of MCBs relinked in place, each method tied to
  `Heap`; `HeapRuns.dfy` proves what holds over whole histories of calls.
- **Event kernel.** `EventKernel.dfy` is the queue as a state machine with the interrupt window of
  `vsfsm_poll` cut into its steps; `EventRuns.dfy` proves what every run keeps; `EventQueue.dfy` is the ring
  in memory, whose methods are such steps, with interrupts between any two statements that allow them.
  `EventExamples.dfy` holds two runs that show its limits.
- **Timers.** `Timers.dfy` (the list as a value, the tick), `TimerRuns.dfy` (trigger counts over runs),
  `TimerList.dfy` (the linked list and the loop over it).
- **Semaphores and critical sections.** `Sync.dfy` and, in memory, `SyncObject.dfy`.
- **TCP.** `Tcp.dfy` says what each event does to the protocol control block, `TcpSocket.dfy` is the code that
  updates it in place. `TcpStream.dfy` (sequence numbers, the retransmit queue), `TcpEnd.dfy` (one end),
  `TcpPeer.dfy` (one end against any peer), `TcpNet.dfy` (two ends over a network that loses, repeats and
  reorders), `TcpLoss.dfy` (nothing accepted is lost) `TcpWrap.dfy` (unless the numbers wrap) and
  `TcpRetry.dfy` (what a timer sends again) hold the proofs. `TcpInbox.dfy` (what the application fetches),
  `TcpStates.dfy` (states, wake-ups, answers), `TcpFlow.dfy` (windows and waiting senders) and `TcpTimers.dfy`
  (schedules) hold what else an end keeps. `Checksum.dfy` is the Internet checksum.
- **USB transfers.** `UsbOut.dfy` and `UsbIn.dfy` are the two state machines with host, stream and event
  queue around them; `UsbDevice.dfy` runs them on a `Fifo`.
- **Byte containers.** `Fifo.dfy`, `Multibuf.dfy` and `MultibufStream.dfy`, `DynArr.dfy` and `DynStack.dfy` with
  `Words.dfy`, `BitField.dfy`. `Chains.dfy`, `Division.dfy` and `Wrappers.dfy` are shared helpers.

Where the source changes things in place the model is a class or a method on an array whose `ensures` gives
the new state as a function of the old one, and the lemmas are about that function. Sequence numbers, event
counters and ring indices have the width that the C types give them. What the hardware, the clock or the
memory allocator decides is a parameter: `ok` (a buffer and a route were there), `readings` (the clock),
`budget` (how many more blocks can be had), `posted` (the event queue had room).

Preconditions taken from the design: request sizes, deadlines and the length of one TCP stream stay below
2^32; alignments are multiples of 4; a state machine is not put twice on one waiting list; an event queue
starts with `tick_evt_count` 0, which `vsfsm_evtq_init` itself does not set.

What the proofs found the code not to do, each with its exact condition:

- An acknowledgement is compared with `>=` on 32-bit numbers. A number that repeats the last one is ignored;
  any other takes just the covered buffers out of outq exactly if the numbers do not wrap among them
  (`TcpEnd.AckDropsExactly`). `TcpWrap.WrapLosesData` is a run of a whole connection in which a byte that the
  peer never saw is dropped by the acknowledgement of the byte before it; its initial number is one that
  `vsfip_get_tsn` gives.
- In SYN_SENT a bare ACK is taken as the answer; the connection then expects a byte one too far, exactly if
  the segment brought no SYN (`TcpEnd.FirstAnswer`). In a simultaneous open the SYN | ACK carries a number
  one too high (`TcpEnd.SimultaneousOpen`).
- `vsfsm_post_evt` called from an interrupt can overtake an event that has been counted out of the ring and
  waits for its handler: exactly then, and not otherwise (`EventRuns.DirectPostFromInterrupt`, with a run in
  `EventExamples.Overtaking`).
- `vsfsm_fini` clears a machine out of the ring exactly if the ring is not completely full or does not hold
  it (`EventRuns.FiniClears`); `EventExamples.FiniMisses` is a run in which a finished machine's handler is
  called.
- What a timer sends again carries a SYN or a FIN exactly if the flags held at that moment do
  (`TcpEnd.ResentExactly`). A SYN or FIN is remembered exactly if its first attempt found a buffer, or the
  flags were the same before (`TcpEnd.RememberedExactly`, `TcpEnd.FirstSynResent`), and is then kept over every
  run, a FIN if nothing was queued when it went out (`TcpRetry.SynIsResent`, `TcpRetry.AnswerIsResent`,
  `TcpRetry.FinIsResent`). With a buffer queued it can be forgotten (`TcpRetry.FinForgotten`), which is why
  `vsfip_tcp_close` waits for the queue first.
- A FIN is taken whether or not what comes before it is there, and the number after it is right exactly if its segment
  has no data (`TcpStates.FinExactly`). From then on nothing is given out of inq (`TcpPeer.ClosedUnread`), not
  even data that came with the FIN (`TcpPeer.DataWithFin`), and who asks for it waits for the whole timeout
  (`TcpTimers.ReceiverTimesOut`).
- A buffer without room for its header is refused and queued all the same, exactly if it would have been sent
  otherwise (`TcpStates.RefusedYetQueued`).
- A sender that waits with nothing queued, because its buffer is larger than the peer's window, is not woken when
  the window opens (`TcpFlow.StalledSender`); any other one has something queued that will wake it
  (`TcpFlow.FlowOverLife`).
- A USB packet longer than what is outstanding is dropped and its endpoint stays dead
  (`UsbOut.TakenExactly`, `UsbOut.OverlongDropped`).
- A transfer of no bytes is idle while its endpoint is busy: an OUT endpoint is armed twice exactly if such a
  transfer finds a stream event left over (`UsbOut.ArmedTwice`), and an IN endpoint gets a second packet
  exactly if it also asks for a closing packet (`UsbIn.ClashExactly`).
- An OUT transfer that starts with its reader gone and no room waits for ever (`UsbOut.HeardExactly`).
- `multibuf_stream_get_avail_length` tells what a write takes exactly if no buffer is half read
  (`Multibuf.AvailIsRoom`).
- A wake-up that cannot be posted locks a critical section for good (`Syncs.CriticalSection`,
  `Syncs.LockedOut`).
- One altered word of a header that keeps the header's length goes unnoticed exactly if it went from all zeros
  to all ones or back (`Checksum.AlteredWord`). The check takes the length from the header itself; an altered
  length goes unnoticed exactly if the altered word makes up for the bytes gained or lost
  (`Checksum.AlteredLength`), as in `Checksum.LongerHeaderPasses`.
- A packet whose time to live is zero already is forwarded with 255 and a header that no longer passes: a
  header that passed passes after forwarding exactly if its time to live was not zero, or it is too short to
  hold it (`Checksum.ForwardedPasses`).

## Model

| member | source | states |
|---|---|---|
| Heap.BlocksAscend | vsf/component/fundation/buffer/buffer.c:632-652 | in a tiled arena blocks of higher index lie at higher addresses and never overlap |
| Heap.ByteInOneBlock | vsf/component/fundation/buffer/buffer.c:632-652 | every byte of the arena is in exactly one block, counted as header and payload |
| Heap.TotalIsArena | vsf/component/fundation/buffer/buffer.c:583-856 | the total of MCB_SIZE + size over all blocks is the size of the arena |
| Heap.CarveKeeps | vsf/component/fundation/buffer/buffer.c:698-729 | head split, tail split and both keep the arena tiled and no two free blocks adjacent |
| Heap.ReleaseKeeps | vsf/component/fundation/buffer/buffer.c:583-630 | the four merge cases keep the arena tiled and leave no two free blocks adjacent |
| Heap.CarveThenRelease | vsf/component/fundation/buffer/buffer.c:583-753 | giving back what was just carved out restores the very same blocks |
| Heap.MallocStepKeeps | vsf/component/fundation/buffer/buffer.c:658-777 | malloc keeps tiling and full coalescing, refused or not |
| Heap.FreeStepKeeps | vsf/component/fundation/buffer/buffer.c:782-856 | free keeps tiling and full coalescing, for any pointer |
| Heap.TouchingAreNeighbours | vsf/component/fundation/buffer/buffer.c:583-630 | a block touches another in memory exactly if they are neighbours, so the address test of the merge finds just the neighbours |
| Heap.StretchIsRelease | vsf/component/fundation/buffer/buffer.c:583-630 | stretching a block over its free neighbours is the same as releasing it and fusing |
| HeapRuns.RunSound | vsf/component/fundation/buffer/buffer.c:658-856 | over every run of malloc and free the arena is tiled and coalesced, and each live pointer has its own used block that holds the bytes asked for |
| HeapRuns.LiveBytesAreOwned | vsf/component/fundation/buffer/buffer.c:681-753 | in every run each byte that a client asked for, of every live pointer, is in one used block's payload and in no header, no free payload and no other allocation |
| HeapRuns.RunConserves | vsf/component/fundation/buffer/buffer.c:583-856 | over every run of calls, also frees of any address, the arena stays tiled and coalesced and headers and payloads come to the same total |
| HeapRuns.AllFreedIsInitial | vsf/component/fundation/buffer/buffer.c:583-652 | whenever everything is freed, in whatever order, the arena is the single block made by init |
| HeapRuns.MallocFreeRestores | vsf/component/fundation/buffer/buffer.c:658-856 | malloc followed by free of its result restores blocks and live allocations |
| HeapRuns.ResultIsAligned | vsf/component/fundation/buffer/buffer.c:686-693 | a pointer handed out is a multiple of the alignment, at least 4 |
| HeapRuns.MallocExactly | vsf/component/fundation/buffer/buffer.c:658-753 | with m the least multiple of 4 not below the size, malloc refuses exactly if the size is 0 or no free block has m bytes at a multiple of the alignment; otherwise it gives the first such address in a smallest such block |
| HeapRuns.MallocTakes | vsf/component/fundation/buffer/buffer.c:681-729 | just one block more is used, cut out of a free one, with fewer than a header and a word in front of those m bytes and no more than a header behind them |
| BufMgr.RemoveMcb | vsf/component/fundation/buffer/buffer.c:527-552 | takes an MCB out of a size-ordered list, which stays ordered, and clears its link; nothing happens to a list without it |
| BufMgr.InsertMcb | vsf/component/fundation/buffer/buffer.c:554-581 | puts an MCB into a size-ordered list, which stays ordered |
| BufMgr.Manager.constructor | vsf/component/fundation/buffer/buffer.c:632-652 | init makes one free block of the arena |
| BufMgr.Manager.SplitHead | vsf/component/fundation/buffer/buffer.c:698-710 | the padding before an aligned payload becomes a smaller free block |
| BufMgr.Manager.SplitTail | vsf/component/fundation/buffer/buffer.c:717-727 | what a block has too much becomes a free block behind it |
| BufMgr.Manager.Malloc | vsf/component/fundation/buffer/buffer.c:658-777 | refuses exactly if the size is 0 or no free block holds the rounded size with its padding; otherwise carves it out of a smallest block that does, and keeps both lists and the arena |
| BufMgr.Manager.MergeMcb | vsf/component/fundation/buffer/buffer.c:583-630 | a block that leaves the allocated list is fused with its free neighbours, in all four cases |
| BufMgr.Manager.Free | vsf/component/fundation/buffer/buffer.c:782-856 | releases the used block whose payload holds the pointer; changes nothing if there is none |
| EventRuns.EnqueueKeeps | vsf/framework/vsfsm/vsfsm.c:43-81 | a post into the ring keeps order, contents and all counters |
| EventRuns.PostCurrentKeeps | vsf/framework/vsfsm/vsfsm.c:395-418 | the choice between direct dispatch and queueing keeps the order of each machine's events |
| EventRuns.AdvanceKeeps | vsf/framework/vsfsm/vsfsm.c:357-384 | moving the head before the counts go down keeps everything but the counts of the event stepped over |
| EventRuns.CommitKeeps | vsf/framework/vsfsm/vsfsm.c:357-384 | counting the event out brings the counters back in step with the ring |
| EventRuns.DispatchKeeps | vsf/framework/vsfsm/vsfsm.c:357-384 | starting the handler keeps the order of posting |
| EventRuns.FiniKeeps | vsf/framework/vsfsm/vsfsm.c:325-355 | clearing a machine out of the ring keeps what the other machines rely on |
| EventRuns.StepKeeps | vsf/framework/vsfsm/vsfsm.c:43-436 | every step of kernel and interrupts keeps the invariant |
| EventRuns.StartedInOrder | vsf/framework/vsfsm/vsfsm.c:357-436 | for each machine the events whose handling started are a prefix of those accepted, in order of posting, and all of them once the queue is drained |
| EventRuns.HandledOnce | vsf/framework/vsfsm/vsfsm.c:357-436 | over every run and for every event of a machine that was not finished, ordinary, instant or TIMER: it was posted as often as its handler was called with it, it is between ring and handler, and it is in the ring; all were handled once the ring is drained |
| EventRuns.AcceptedIsPosted | vsf/framework/vsfsm/vsfsm.c:43-81 | exactly which posts are accepted; a refused one changes nothing, an accepted one is posted, but for a TIMER event while one is in the ring |
| EventRuns.InstantIs | vsf/framework/vsfsm/vsfsm.h:69 | the instant events are those with bit 13 set, in two's complement |
| EventRuns.LeavesAsEntered | vsf/framework/vsfsm/vsfsm.c:43-81 | what leaves the ring is what entered it, first in first out |
| EventRuns.CountersMatch | vsf/framework/vsfsm/vsfsm.c:357-384 | outside the window between head advance and decrement evt_count, each machine's count and tick_evt_count are what the ring holds, and at most one TIMER event is queued |
| EventRuns.UnreadSlotIntact | vsf/framework/vsfsm/vsfsm.c:357-384 | the slot poll has read is not overwritten before the head moves |
| EventRuns.RefusedOnlyWhenFull | vsf/framework/vsfsm/vsfsm.c:43-81 | a post is refused exactly by a full queue |
| EventRuns.NothingUnderflows | vsf/framework/vsfsm/vsfsm.c:370-380 | no counter goes below zero when an event is counted out |
| EventRuns.FiniQueued | vsf/framework/vsfsm/vsfsm.c:325-355 | the scan of fini forgets the machine in the queued entries and moves none |
| EventRuns.FiniClears | vsf/framework/vsfsm/vsfsm.c:325-355 | after fini no queued entry is for the machine, exactly if the ring was not completely full or did not hold it |
| EventRuns.DirectPostFromInterrupt | vsf/framework/vsfsm/vsfsm.c:395-418 | a direct post from an interrupt keeps the machine's order exactly if no other ordinary event of it is counted out and waits for its handler with nothing queued behind |
| EventExamples.Overtaking | vsf/framework/vsfsm/vsfsm.c:395-418 | a run on a ring of one slot after which a direct post from an interrupt is handled before an event posted earlier |
| EventExamples.FiniMisses | vsf/framework/vsfsm/vsfsm.c:325-355 | a run in which fini on a full ring leaves the machine's event, whose handler is then called |
| EventQueue.EvtQueue.EvtqPost | vsf/framework/vsfsm/vsfsm.c:43-81 | the post on the ring array: the new queue is the step function's, and the object stays on a run |
| EventQueue.EvtQueue.PostEvt | vsf/framework/vsfsm/vsfsm.c:395-418 | direct dispatch or queueing, as the step function says |
| EventQueue.EvtQueue.PostEvtPending | vsf/framework/vsfsm/vsfsm.c:420-436 | an instant event is refused, any other is posted to the ring |
| EventQueue.EvtQueue.Poll | vsf/framework/vsfsm/vsfsm.c:357-384 | with any interrupt posts between any two steps, poll runs until the ring is empty and stays on a run of the state machine, so every event has been handled (EventRuns.HandledOnce) |
| EventQueue.EvtQueue.Fini | vsf/framework/vsfsm/vsfsm.c:325-355 | the scan over the ring array does what the step function says |
| Timers.InsertGood | vsf/component/fundation/buffer/buffer.c:112-141 | insertion keeps deadlines in order and timers distinct |
| Timers.InsertAt | vsf/component/fundation/buffer/buffer.c:112-141 | the alarm goes in at one place, after all that are earlier and before all others |
| Timers.AfterOneIs | vsf/framework/vsftimer/vsftimer.c:88-118 | re-arming or freeing a timer that went off leaves one due timer less and the others as they were |
| Timers.TickFiresTheDue | vsf/framework/vsftimer/vsftimer.c:80-131 | a tick fires all due timers once, no others, in order of deadline; the list then holds only later deadlines in order: those not due and those with rounds left |
| TimerRuns.TickAt | vsf/framework/vsftimer/vsftimer.c:88-118 | one tick and one timer: one that is not due is untouched; one that is due goes off once, and is gone after its last round, or on the list again with deadline interval + the reading of its round, the same interval, and one round less if rounds are counted |
| TimerRuns.FiresItsCount | vsf/framework/vsftimer/vsftimer.c:80-178 | over every run of ticks and of arming and freeing of others a timer armed for n > 0 rounds goes off at most n times, waits with the rest of its rounds until then, and is gone after n |
| TimerRuns.RoundsAreSpaced | vsf/framework/vsftimer/vsftimer.c:56-131 | over every run that leaves the timer alone: it never goes off before its deadline, two rounds lie at least its interval apart, its deadline is an interval after the last round, and one armed for ever is still on the list |
| TimerRuns.ArmedIs | vsf/framework/vsftimer/vsftimer.c:56-78 | arming puts the timer on the list once, an interval after the reading, freeing takes it off; no other one changes |
| TimerList.Queue.Unlink | vsf/component/fundation/buffer/buffer.c:82-110 | vsfq_remove takes just the node out, wherever it is, and changes nothing if it is not there |
| TimerList.Queue.Link | vsf/component/fundation/buffer/buffer.c:112-141 | vsfq_enqueue links the node in before the first one that is not earlier |
| TimerList.Queue.Enqueue | vsf/framework/vsftimer/vsftimer.c:56-67 | the timer is on the list once, at its new deadline, and no other one changes |
| TimerList.Queue.Dequeue | vsf/framework/vsftimer/vsftimer.c:69-78 | the timer is off the list and the others stay in order |
| TimerList.Queue.Tick | vsf/framework/vsftimer/vsftimer.c:80-131 | the loop over the linked list fires what the tick function says and leaves what it says; the number of due timers falls each round |
| Syncs.FairOverRuns | vsf/framework/vsfsm/vsfsm.c:550-665 | over every run the value stays within its bound, nobody waits while it is positive, those let in are in order of arrival less the cancelled, and each arrival waits, was let in, was cancelled or lost its wake-up: one of them, once |
| Syncs.ValueIsConserved | vsf/framework/vsfsm/vsfsm.c:610-665 | from any state over every run: the value at the start plus the increases answered without error with nobody waiting is the value at the end plus the decreases answered without waiting; each other increase answered without error let in one |
| Syncs.RefusedExactly | vsf/framework/vsfsm/vsfsm.c:610-665 | after every run an increase with nobody waiting is refused exactly at max, one with somebody waiting exactly if its wake-up is, and a decrease waits exactly at zero |
| Syncs.CriticalSection | vsf/framework/vsfsm/vsfsm.h:310-313 | at most one machine is inside; with no wake-up lost holders and value make one, with one lost nobody enters again |
| Syncs.LockedOut | vsf/framework/vsfsm/vsfsm.c:625-631 | a run in which a refused wake-up leaves the section empty and the next machine waiting |
| Syncs.CancelInTurn | vsf/framework/vsfsm/vsfsm.c:580-608 | cancelling one waiter leaves the order of the others |
| Syncs.CancelExactly | vsf/framework/vsfsm/vsfsm.c:580-608 | cancelling takes out the first entry of the machine and nothing else, and changes nothing if there is none |
| SyncObject.SyncBlock.Decrease | vsf/framework/vsfsm/vsfsm.c:647-665 | takes from a positive value, otherwise appends the machine to the linked list |
| SyncObject.SyncBlock.Increase | vsf/framework/vsfsm/vsfsm.c:610-645 | wakes the first waiter, or raises the value up to its bound, or reports the bug |
| SyncObject.SyncBlock.Cancel | vsf/framework/vsfsm/vsfsm.c:580-608 | unlinks the machine from the list of waiters, if it is there |
| TcpStream.QueueAppends | vsf/component/tcpip/vsfip.c:1858-1868 | a buffer appended at lseq keeps outq contiguous up to the end of the stream |
| TcpStream.DropsPrefix | vsf/component/tcpip/vsfip.c:1590-1612 | an acknowledgement drops the longest prefix of outq that the comparison covers |
| TcpStream.QueueDrops | vsf/component/tcpip/vsfip.c:1590-1612 | whatever the number, outq stays contiguous and ends where it ended |
| TcpStream.CoveredRight | vsf/component/tcpip/vsfip.c:1596 | the comparison of two numbers is right exactly if no wrap lies between them |
| TcpStream.LoopDropsExactly | vsf/component/tcpip/vsfip.c:1590-1612 | the loop over outq, for the number of the first k bytes, drops the buffers it covers and no others, exactly if the numbers do not wrap among them |
| TcpStream.UnackedFrom | vsf/component/tcpip/vsfip.c:1590-1612 | what is left then starts no later than the first unacknowledged byte and its first buffer reaches past it |
| TcpEnd.InputKeeps | vsf/component/tcpip/vsfip.c:1412-1704 | in any state a segment of the peer keeps both sides: what was handed on is a prefix of the peer's stream, rseq is the number of the next byte while the connection is up, sent data are slices of the own stream, outq is its contiguous end up to lseq; the answer to a SYN must bring the peer's SYN, see TcpEnd.FirstAnswer and TcpEnd.SimultaneousOpen |
| TcpEnd.TickKeeps | vsf/component/tcpip/vsfip.c:1291-1392 | so does the tick, with resent SYN, FIN and data, giving up and the delayed acknowledgement |
| TcpEnd.SendKeeps | vsf/component/tcpip/vsfip.c:1831-1874 | so does sending on a connection that is up, from a buffer with room for the header |
| TcpEnd.CloseKeeps | vsf/component/tcpip/vsfip.c:2020-2028 | so does closing |
| TcpEnd.AckDropsExactly | vsf/component/tcpip/vsfip.c:1582-1612 | a segment that acknowledges the first k bytes takes the covered buffers and no others out of outq, exactly if its number repeats the last one and covers nothing, or is another one and no wrap lies among the buffers it is compared with |
| TcpEnd.ResentExactly | vsf/component/tcpip/vsfip.c:1296-1312 | what the handshake timer sends again has the acknowledged number and carries a SYN, or a FIN, exactly if the flags held then do; only then does the timer run on |
| TcpEnd.RememberedExactly | vsf/component/tcpip/vsfip.c:1231-1277 | a SYN or FIN is remembered exactly if it found a buffer or the flags were the same |
| TcpEnd.FirstSynResent | vsf/component/tcpip/vsfip.c:1739-1746 | a client whose first SYN found no buffer never sends one, and its lseq falls back |
| TcpRetry.SynIsResent | vsf/component/tcpip/vsfip.c:1739-1746 | over every run a client whose SYN found a buffer sends that SYN again whenever its timer runs out unanswered |
| TcpRetry.AnswerIsResent | vsf/component/tcpip/vsfip.c:1474-1488 | so does a child with its SYN and ACK |
| TcpRetry.FinIsResent | vsf/component/tcpip/vsfip.c:2000-2028 | so does an end with a FIN that it sent with nothing queued, whatever happens in between |
| TcpRetry.FinForgotten | vsf/component/tcpip/vsfip.c:1246-1250 | with a buffer queued, which is sent again in between, the timer sends no FIN and does not run on |
| TcpEnd.ResendsExactly | vsf/component/tcpip/vsfip.c:1291-1392 | a tick that does not give up sends again just the buffers of outq whose time is up, each once, in order and under its own number, exactly if it gets past the two timers; before them goes at most the SYN or FIN again; after them goes an acknowledgement of all that was taken in, exactly if its time is up, something is not acknowledged and nothing sent in this tick does |
| TcpEnd.AcknowledgedInTime | vsf/component/tcpip/vsfip.c:1387-1391 | data taken in while nothing else happens is acknowledged with the tenth tick after it and not before |
| TcpEnd.GivesUpExactly | vsf/component/tcpip/vsfip.c:1291-1392 | a tick gives everything queued up exactly if it gets past the two timers, and some buffer's time is up with its last retry spent or the peer closed |
| TcpEnd.DeliversExactly | vsf/component/tcpip/vsfip.c:1394-1692 | data is handed on exactly if it starts at rseq and the connection is up or just completed; no later state delivers any |
| TcpEnd.FirstAnswer | vsf/component/tcpip/vsfip.c:1503-1520 | the answer accepted in SYN_SENT puts rseq right exactly if it brings a SYN |
| TcpEnd.SimultaneousOpen | vsf/component/tcpip/vsfip.c:1493-1502 | in a simultaneous open the SYN and ACK go out with a number one too high |
| TcpPeer.AnyPeerInOrder | vsf/component/tcpip/vsfip.c:1394-1704 | over every life of one end against any peer, with loss, repetition, reordering and re-slicing, what is taken in is a prefix of the peer's stream, an end that is up expects exactly the next byte, and until a reset what the application fetched and what waits in inq together are what was taken in (nothing waits if there is an on_input); a receiver does not wait for a byte that is there |
| TcpPeer.ClosedUnread | vsf/component/tcpip/vsfip.c:1934-1952 | once the peer has closed nothing more is ever fetched: what inq still holds is lost to the application |
| TcpPeer.DataWithFin | vsf/component/tcpip/vsfip.c:1563-1640 | so data that comes with the FIN while no receiver waits is taken in and never fetched |
| TcpPeer.ListenerMakesChild | vsf/component/tcpip/vsfip.c:1419-1490 | a listener makes a child exactly for a SYN within its backlog with a socket left; the child starts as such an end; other segments do not touch a listener |
| TcpNet.StepKeeps | vsf/component/tcpip/vsfip.c:1291-1874 | every event at either end of a connection keeps the invariant of the two |
| TcpNet.DeliveredInOrder | vsf/component/tcpip/vsfip.c:1394-1692 | over every run with loss, repetition and reordering what is taken in for each application is a prefix of what the other one sent, an end that is up expects exactly the next byte, and until a reset what was fetched and what is in inq together are what was taken in |
| TcpNet.SentIsGenuine | vsf/component/tcpip/vsfip.c:1344-1385 | over every run each segment ever sent, first or again, is a slice of its sender's stream under its own number, and outq is the contiguous end of the stream up to lseq |
| TcpLoss.RunSafe | vsf/component/tcpip/vsfip.c:1394-1618 | over every run acknowledgements are for delivered bytes only, and the sender keeps what is not delivered |
| TcpLoss.NothingLost | vsf/component/tcpip/vsfip.c:1344-1618 | while the sender may send and the receiver is up, every accepted byte was delivered or is still in outq, unless the numbers wrapped |
| TcpWrap.WrapLosesData | vsf/component/tcpip/vsfip.c:1582-1612 | a run of a client and a server from an initial number that vsfip_get_tsn gives: 65533 bytes are sent, delivered and acknowledged, then the numbers wrap and a byte that was never delivered is dropped from outq |
| TcpInbox.InputInbox | vsf/component/tcpip/vsfip.c:1394-1692 | a segment that is no reset appends its data to inq, or gives it to on_input, and wakes the receiver, or changes nothing here |
| TcpStates.StateDiagram | vsf/component/tcpip/vsfip.c:1442-1704 | for each state exactly which segments lead to it; there is no CLOSING and no TIME_WAIT |
| TcpStates.WokenExactly | vsf/component/tcpip/vsfip.c:1563-1649 | at an end that is up a receiver is woken exactly by data in order, a FIN or a reset, a sender exactly by an acknowledgement with a new number or a reset |
| TcpStates.AnswersExactly | vsf/component/tcpip/vsfip.c:1563-1635 | an end that is up answers at once exactly data out of order, with the number it expects, and a FIN, with the number after it |
| TcpStates.OpeningAnswers | vsf/component/tcpip/vsfip.c:1494-1561 | what an end that opens answers, and under which numbers: a SYN, the answer to its own, data out of order with what completes the opening, and a FIN |
| TcpStates.ClosingAnswers | vsf/component/tcpip/vsfip.c:1651-1692 | an end that has closed acknowledges exactly data, the FIN, and in LAST_ACK a FIN that comes again |
| TcpStates.TimerStopsExactly | vsf/component/tcpip/vsfip.c:1494-1692 | the timer of a SYN or FIN stops exactly when that is acknowledged or the end is reset |
| TcpStates.RefusedYetQueued | vsf/component/tcpip/vsfip.c:1850-1874 | a buffer is refused and queued all the same exactly if it would have been sent but for the room for its header |
| TcpStates.ClosedAnswers | vsf/component/tcpip/vsfip.c:1449-1451 | a closed end answers every segment but a reset with a reset and does nothing else |
| TcpStates.OffersRoom | vsf/component/tcpip/vsfip.c:1204-1205 | every segment sent offers what the receive window leaves beside inq |
| TcpStates.FinExactly | vsf/component/tcpip/vsfip.c:1619-1640 | the FIN closes the peer's side whether or not what comes before it is there: all of the stream is delivered exactly if nothing was missing, and the next number is right exactly if the segment has no data |
| TcpFlow.FlowOverLife | vsf/component/tcpip/vsfip.c:1831-1930 | over every life what is queued stays within the send window, an end in ESTABLISHED was closed by neither side and one in CLOSE_WAIT by the peer alone, and a sender that waits has something queued, unless it was put to waiting with nothing queued |
| TcpFlow.StalledSender | vsf/component/tcpip/vsfip.c:1582-1618 | such a sender is not woken when the window opens |
| TcpTimers.RetransmitSchedule | vsf/component/tcpip/vsfip.c:1344-1385 | a buffer that is not acknowledged goes out three times in all, a timeout apart, and is given up with a FIN a further timeout later |
| TcpTimers.RequestSchedule | vsf/component/tcpip/vsfip.c:1296-1331 | a SYN, SYN and ACK, or FIN that is out and not answered is sent again after one timeout and after two; after the third an end that opens, or waits for its last acknowledgement, is closed, and who waits is told |
| TcpTimers.RequestsAre | vsf/component/tcpip/vsfip.c:1739-1746 | the SYN of a client, the answer of a child and the FIN of an end that closes with nothing queued are such requests, with three tries |
| TcpTimers.ReceiverTimesOut | vsf/component/tcpip/vsfip.c:1954-1980 | a receiver that is refused, for whatever reason, waits until its timeout and not a tick longer |
| TcpSocket.Socket.Receive | vsf/component/tcpip/vsfip.c:1412-1704 | the whole new control block for any segment in any state |
| TcpSocket.Socket.ReceiveAny | vsf/component/tcpip/vsfip.c:1412-1490 | the whole new control block, listener and child for any segment at any socket |
| TcpSocket.Socket.ReceiveAck | vsf/component/tcpip/vsfip.c:1582-1618 | the loop over outq drops what the specification drops |
| TcpSocket.Socket.OneMs | vsf/component/tcpip/vsfip.c:1291-1392 | the whole new control block after a tick |
| TcpSocket.Socket.AgeQueue | vsf/component/tcpip/vsfip.c:1344-1385 | the walk over outq ages each buffer, sends again what is due or gives everything up |
| TcpSocket.Socket.Send | vsf/component/tcpip/vsfip.c:1831-1874 | a buffer is queued and sent exactly if nobody waits, the end is open, the queued total stays within both windows, and there are a route and room for the header |
| TcpSocket.Socket.TryReceive | vsf/component/tcpip/vsfip.c:1934-1952 | gives the oldest buffer of inq exactly if nobody waits, the peer has not closed and there is one |
| TcpSocket.Socket.ReceiveOrWait | vsf/component/tcpip/vsfip.c:1954-1980 | the same, or the receiver waits with its timeout |
| TcpSocket.Socket.Shut | vsf/component/tcpip/vsfip.c:2020-2028 | the FIN and the state that follows |
| TcpSocket.Socket.StartConnect | vsf/component/tcpip/vsfip.c:1739-1746 | the SYN and the state that follows |
| TcpSocket.Socket.StartAccept | vsf/component/tcpip/vsfip.c:1474-1488 | the child's control block and its SYN and ACK |
| Checksum.Compute | vsf/component/tcpip/vsfip.c:387-404 | for every length the sum fits 32 bits and two folds give the number between 1 and 0xFFFF congruent to it modulo 0xFFFF, or 0 for nothing but zeros |
| Checksum.FoldedIs | vsf/component/tcpip/vsfip.c:401-403 | the residue that two folds of a 32-bit sum give |
| Checksum.PassesExactly | vsf/component/tcpip/vsfip.c:520-524 | the input test accepts exactly the positive multiples of 0xFFFF |
| Checksum.BuiltPasses | vsf/component/tcpip/vsfip.c:591-625 | every header that is built passes the test on input |
| Checksum.BuiltFields | vsf/component/tcpip/vsfip.c:591-625 | what stands where in the twenty bytes: version and length, the length of the packet, identification, offset, time to live, protocol, source, destination, and a checksum that brings the sum to all ones |
| Checksum.AddHeader | vsf/component/tcpip/vsfip.c:591-625 | refuses a buffer without twenty bytes before the data; otherwise the twenty bytes before the packet are the header with its checksum, and nothing else changes |
| Checksum.AlteredWord | vsf/component/tcpip/vsfip.c:518-524 | an altered word that keeps the header's length is unnoticed exactly if it is unchanged or went from 0 to 0xFFFF or back |
| Checksum.AlteredLength | vsf/component/tcpip/vsfip.c:518-524 | an altered length is unnoticed exactly if the altered word makes up for the bytes that the header gains or loses; a length of zero never is |
| Checksum.LongerHeaderPasses | vsf/component/tcpip/vsfip.c:518-524 | such a change, for every header that is built |
| Checksum.ForwardedPasses | vsf/component/tcpip/vsfip.c:492-501 | any header that passed, with options or not, passes after its time to live was taken down and its checksum patched, exactly if the time to live was not zero already or the header is too short to hold it |
| Checksum.Forward | vsf/component/tcpip/vsfip.c:492-503 | the packet goes on with those fields changed and no other, unless its time to live runs out |
| Checksum.FoldFirst | vsf/component/tcpip/vsfip.c:406-424 | folding the segment before the pseudo header is added makes no difference |
| Checksum.PseudoSumIs | vsf/component/tcpip/vsfip.c:406-424 | what is added besides the segment is the sum over the pseudo header of section 3.1 of RFC 793, byte by byte |
| Checksum.TransportPasses | vsf/component/tcpip/vsfip.c:1222-1229 | a segment with its checksum filled in sums up, with its pseudo header, to all ones |
| Fifos.Fifo.Push | vsf/component/fundation/buffer/buffer.c:242-280 | all of the data goes in behind what is there, around the end, or nothing does |
| Fifos.Fifo.Peek | vsf/component/fundation/buffer/buffer.c:318-348 | the oldest bytes, as many as there are |
| Fifos.Fifo.Pop | vsf/component/fundation/buffer/buffer.c:350-374 | the oldest bytes leave in order |
| Fifos.Fifo.Push8 | vsf/component/fundation/buffer/buffer.c:216-226 | one byte goes in if there is room |
| Fifos.Fifo.Pop8 | vsf/component/fundation/buffer/buffer.c:228-240 | the oldest byte leaves |
| Fifos.Fifo.DataLength | vsf/component/fundation/buffer/buffer.c:180-196 | the number of bytes held |
| Fifos.Fifo.AvailLength | vsf/component/fundation/buffer/buffer.c:198-214 | what fits: one byte less than the buffer in all |
| Fifos.Fifo.ReadRun | vsf/component/fundation/buffer/buffer.c:282-298 | a run of the oldest bytes in place, empty only if there are none |
| Fifos.Fifo.WriteRun | vsf/component/fundation/buffer/buffer.c:300-316 | a run of free bytes in place, empty only if the fifo is full |
| Fifos.RingGrows | vsf/component/fundation/buffer/buffer.c:259-278 | data written from the head on, around the end, is appended |
| UsbOut.StepKeeps | vsf/component/usb/core/vsfusbd.c:800-845 | every event of an OUT transfer keeps credit, account and wake-up |
| UsbOut.OutLosesNothing | vsf/component/usb/core/vsfusbd.c:107-154 | for a transfer of any length and over every run, whatever the host sends: its bytes reach the reader whole and in order but for an over-long packet, an armed endpoint has room for its packet, is never armed twice, and does not wait while there is room unless an event for it is queued or was refused; a transfer of no bytes must find no event left over |
| UsbOut.ArmedTwice | vsf/component/usb/core/vsfusbd.c:107-154 | some run arms a busy endpoint exactly for a transfer of no bytes that finds a STREAM_OUT event left over |
| UsbOut.EndsExactly | vsf/component/usb/core/vsfusbd.c:815-843 | a transfer goes on after a packet exactly if the packet was too long, or something is left, the packet was full, and the reader is there or the stream can take the rest |
| UsbOut.HeardExactly | vsf/component/usb/core/vsfusbd.c:1156-1159 | in no run does a transfer wait for room with its reader gone and no word of it on the way or refused, exactly if it has no bytes, or at its start the reader is there, there is room, or such an event is left over |
| UsbOut.CloseEndsExactly | vsf/component/usb/core/vsfusbd.c:1156-1159 | that word ends a transfer exactly if its endpoint is neither armed nor holds a packet, and changes nothing else |
| UsbOut.TakenExactly | vsf/component/usb/core/vsfusbd.c:808-814 | a packet is written exactly if it is no longer than what is outstanding and fits; an over-long one is dropped and its endpoint stays dead |
| UsbOut.OverlongDropped | vsf/component/usb/core/vsfusbd.c:811-814 | such a packet: two bytes for a transfer of one |
| UsbIn.ChunksAre | vsf/component/usb/core/vsfusbd.c:752-798 | packets are the data again, all but the last full |
| UsbIn.StepKeeps | vsf/component/usb/core/vsfusbd.c:752-798 | every event of an IN transfer keeps packetisation and a single packet in flight |
| UsbIn.InSendsPackets | vsf/component/usb/core/vsfusbd.c:193-223 | over every run the packets are the next bytes of the stream cut to the endpoint's size, closed by an empty packet exactly if it was asked for and the length is a multiple, never two in flight, and none that is there waits unless an event for it is queued or was refused |
| UsbIn.EmptyTransfer | vsf/component/usb/core/vsfusbd.c:216-220 | a transfer of no bytes sends one empty packet, or two with a closing packet asked for, one at a time |
| UsbIn.ClashExactly | vsf/component/usb/core/vsfusbd.c:193-223 | some run hands a packet to a busy endpoint exactly for a transfer of no bytes that asks for a closing packet and finds a stream event left over |
| UsbIn.DropsExactly | vsf/component/usb/core/vsfusbd.c:762-770 | a transfer is dropped exactly if the writer is gone and the next packet is not there |
| UsbDevice.OutTransfer.Transact | vsf/component/usb/core/vsfusbd.c:107-124 | arms an idle endpoint exactly if the stream has room for its packet |
| UsbDevice.OutTransfer.Receive | vsf/component/usb/core/vsfusbd.c:126-154 | starts a transfer of any length in any state of the endpoint |
| UsbDevice.OutTransfer.OnPacket | vsf/component/usb/core/vsfusbd.c:800-845 | an over-long packet is dropped; any other is accounted for, the endpoint armed again if there is room, then the data written |
| UsbDevice.OutTransfer.OnStreamOut | vsf/component/usb/core/vsfusbd.c:1160-1162 | room in the stream arms an idle endpoint |
| UsbDevice.OutTransfer.OnStreamClosed | vsf/component/usb/core/vsfusbd.c:1156-1159 | an idle transfer ends when the stream is closed |
| UsbDevice.OutTransfer.ReadStream | vsf/component/fundation/stream/stream.c:22-31 | the reader gets the oldest bytes and the writer's end is told |
| UsbDevice.InTransfer.OnInDo | vsf/component/usb/core/vsfusbd.c:752-798 | the next packet, the closing packet, waiting, or the end |
| UsbDevice.InTransfer.Send | vsf/component/usb/core/vsfusbd.c:193-223 | starts a transfer of any length in any state of the endpoint |
| UsbDevice.InTransfer.OnSent | vsf/component/usb/core/vsfusbd.c:1168-1172 | a packet that went out is followed by the next one, the closing one or the end |
| UsbDevice.InTransfer.OnStreamIn | vsf/component/usb/core/vsfusbd.c:1149-1155 | data in the stream goes on with an idle transfer |
| UsbDevice.InTransfer.WriteStream | vsf/component/fundation/stream/stream.c:33-46 | the writer's bytes go in whole or not at all, an overflow is remembered, and the reader's end is told |
| Multibuf.PutAppends | vsf/component/fundation/stream/stream.c:243-268 | what is written into the buffer at the head comes behind what is there, also when the buffer fills up |
| Multibuf.TakeRemoves | vsf/component/fundation/stream/stream.c:270-295 | what is read from the buffer at the tail is the oldest, also when the buffer is done |
| Multibuf.RoomAndReady | vsf/component/fundation/stream/stream.c:201-207 | how many bytes can be written and read, and how many are there |
| Multibuf.AvailIsRoom | vsf/component/fundation/stream/stream.c:209-215 | the available length is what a write takes exactly if rpos is 0 |
| MultibufStream.Stream.Write | vsf/component/fundation/stream/stream.c:243-268 | takes min(n, (count - length) * size - wpos) bytes and appends them |
| MultibufStream.Stream.Read | vsf/component/fundation/stream/stream.c:270-295 | returns min(n, length * size - rpos) of the oldest bytes; all that was ever read is a prefix of all that was ever written |
| DynArr.Array.SetSize | vsf/component/tool/dynarr/vsf_dynarr.c:8-79 | growth adds buffers and tables, moves and writes none that is there, and keeps what it got when memory ends |
| DynArr.Array.GrowOne | vsf/component/tool/dynarr/vsf_dynarr.c:46-78 | one more buffer in the next slot, with a new table if the last one is full, or nothing |
| DynArr.Array.Get | vsf/component/tool/dynarr/vsf_dynarr.c:130-154 | the walk finds the buffer and the word of each position below the length, and nothing for others |
| DynArr.Array.ItemsDisjoint | vsf/component/tool/dynarr/vsf_dynarr.c:130-154 | the cells of two positions share no word |
| DynStack.Stack.Push | vsf/component/tool/dynstack/vsf_dynstack.c:45-63 | the item is on the stack num times, or nothing changed |
| DynStack.Stack.Pop | vsf/component/tool/dynstack/vsf_dynstack.c:34-43 | num items go and the oldest of them is handed out |
| DynStack.Stack.PushExt | vsf/component/tool/dynstack/vsf_dynstack.c:65-80 | the block is on the stack item after item |
| DynStack.Stack.PopExt | vsf/component/tool/dynstack/vsf_dynstack.c:82-108 | the words of the last items come back; it fails exactly if there are too few, and then the stack is empty |
| DynStack.Stack.PushAndPop | vsf/component/tool/dynstack/vsf_dynstack.c:65-108 | a block pushed and popped again comes back as it was, and so do the stack and its pointer |
| Words.PushThenPop | vsf/component/tool/dynstack/vsf_dynstack.c:65-108 | the same on values, for every item size and length: the last words of a chopped block are the block |
| BitField.GetValue | vsf/component/fundation/buffer/buffer.c:23-41 | the bits from offset on, and none above them |
| BitField.SetValue | vsf/component/fundation/buffer/buffer.c:43-60 | the field holds the value's bits and every other bit is as before |
| BitField.ReadBack | vsf/component/fundation/buffer/buffer.c:23-60 | reading back gives the value modulo 2 to the len |
| BitField.OthersStay | vsf/component/fundation/buffer/buffer.c:43-60 | a field that shares no bit with it reads as before |
| BitField.ModuloIsRemainder | vsf/component/fundation/buffer/buffer.c:23-41 | keeping the low bits of a number is its remainder |

## Left out

- Everything under `vsf/hal`, boards, examples and drivers: register access; endpoint, clock and interrupt mask are parameters.
- The hierarchical dispatch in `vsfsm.c:121-209`, which is off by default: a dispatch is one call of the handler.
- `setjmp` and protothread machinery: a wait is the boundary between two steps.
- Event queues other than the current one, sub state machines, `vsfsm_set_active`.
- BufMgr.Manager.Malloc: the rounding of the size and the end of the padded request are not cut to 32 bits; for sizes near 2^32 the code wraps.
- BufMgr.Manager.Free: the optional pointer check, the error counter and the log are not modelled.
- `vsfq_append`, `vsfq_dequeue` and the tail pointer of a queue after `vsfq_enqueue` put a node last, which the code leaves behind: nothing is claimed about `tail`.
- TimerList.Queue.Tick: callbacks leave the list alone; `vsftimer_free` gives the timer back to its pool before its event is read, and the model keeps the object.
- `vsftimer_clean_sm`.
- TcpNet.DeliveredInOrder: one connection of a client and a child of a listener, from the first SYN and its answer, both of which find a buffer, between two ends that run this code (any peer: `TcpPeer.AnyPeerInOrder`); the application sends only while the connection is up and closes what it was given. No segment of an earlier connection is in the network.
- TcpNet.SentIsGenuine: every buffer given for sending has room for the header; a buffer without it stays in outq under a stale number and is never sent.
- TcpLoss.NothingLost: nothing is claimed once the sender has given up, or once the receiver has left ESTABLISHED, where the code acknowledges data that goes nowhere.
- TcpSocket.Socket.ReceiveAny: the control block is one field of the socket that is updated part by part, and `on_input` and `on_outputted` do not change it; which socket a listener's child gets is a parameter.
- TcpStates.WokenExactly: a machine that is woken goes on when the segment is done with; the code may call it in between, and then looks at the state again.
- TcpSocket.Socket.Receive: the part for sockets that do not listen; `ReceiveAny` is the whole.
- TcpEnd.InputKeeps: the answer to a SYN that is a bare SYN or has another number, for which the property fails as stated there.
- TcpEnd.SendKeeps: sending before the connection is up, and from a buffer without room for the header.
- TcpEnd.TickKeeps: the branch that closes a child whose handshake timed out, which gives the socket back.
- TcpSocket.Socket.OneMs: the branch that closes a child whose handshake timed out (`vsfip_close`) is not modelled.
- In TCP further: inq expiry, reference counts of buffers on error paths, MSS option, sequence values after a FIN, liveness of retransmission.
- ARP, DHCP, ICMP and its checksum patch, UDP, DNS, HTTP, telnet, IPv6.
- UsbOut.OutLosesNothing: an endpoint that is still busy when a transfer starts.
- UsbIn.InSendsPackets: transfers of n > 0 bytes (none: `UsbIn.EmptyTransfer`), on an endpoint that is not busy.
- Enumeration, descriptors, control transfers and class protocols of USB; the host side.
- `multibuf_stream_get_wbuf` and `get_rbuf`, which cast the wrong structure, and the buffer stream.
- DynArr.Array.SetSize: shrinking, and `vsf_dynarr_fini`, are not modelled; the stack never shrinks its array.
- DynStack.Stack.PopExt: the words come back as a value instead of through a pointer; the block pushed must be readable up to a whole item, as the code reads it.
- DynStack.Stack.Push: the stack stays within 65536 items, beyond which the code's 16-bit position names another cell.
- BitField.SetValue: bytes and words are given by their bits, with the operators of the machine defined on them.
- Shell, file system, HID, SCSI, debug output, pools: input and output, or easy.
