# A model of libevent's data structures and state machines

The repository is an Android VPN client that carries libevent 2.1.8 along. This project models the
parts of libevent that work in memory, in the form the C code has, and proves what they promise:

- `Chains`, `EvBuffers`, `Splices`, `Pullups`, `Reserves`, `Commits`, `SingleChain`, `Reached`,
  `Pointers`, `Search`, `Lines`, `BufferRuns`: the evbuffer, a linked list of partly filled chains
  that behaves like one string of bytes.
- `EpollTable`, `Evmap`: which events are pending on a file descriptor, the list of changes not yet
  told to the kernel, and the table that picks the kernel call. The kernel is a map from descriptor
  to interest; ADD fails for a known descriptor, MOD and DEL fail for an unknown one.
- `Events`, `MinHeap`, `EventQueues`, `EventLoop`, `EventDispatch`, `EventRuns`,
  `EventTraces`: the event base with its active queues, the binary heap of timeouts and the lists of
  common timeouts.
- `DnsNames`: domain names in DNS messages with the compression of section 4.1.4 of RFC 1035.
- `DnsTable`, `DnsRequests`, `DnsTraces`: the requests of a resolver, its nameservers and retransmissions.
- `RateLimit`, `RateGroup`: token buckets, rate limits, and rate-limit groups under failing try-locks.
- `Tagging`: tagged records in an evbuffer.
- `Arc4`, `Arc4Random`: the arc4random stream, its seedings, and the reduction to a range.
- `Lists`, `Numbers`, `Options`: small shared parts.

`dafny verify dfyconfig.toml` checks everything.

## How to read it

Chains and buffers are objects with the fields of the C structures; `chains`, `blocks` and `lw` are
ghost fields that say what the pointers stand for, and `Valid` is the invariant that
evbuffer-internal.h states in words. The bytes of a chain are a value in the chain object because
they lie in the same allocation. A slot (`Head` or `After(c)`) is a pointer to a next pointer.
Events, requests and bufferevents are numbered; a number stands for the pointer. Time, the answers
of the kernel and of sockets, random draws and the locks that are held elsewhere are parameters or
free choices of the methods.

Some promises do not hold in all cases. Each of these has a statement of exactly when it holds
and, where the condition does not name one, an input for which it does not:

- `evbuffer_remove_buffer` ends with both buffers well formed exactly under `Splices.CanSplit`
  (`Splices.RemoveBuffer`, `Reached.RemoveBufferBreaks`). No empty chain before the last one with
  data is enough (`Splices.SplitsWithoutEmpty`).
- Committing to the last chain keeps the invariant exactly when it skips no empty chain
  (`Commits.CommitSpace`, `Reached.CommitBreaks`). A single vector is accepted exactly when
  `SingleChain.OneVecAccepted` says.
- A domain name with an empty piece is cut there (`DnsNames.MeaningIsSplit`,
  `DnsNames.EmptyPieceCuts`). A pointer works exactly for the first 0x4000 bytes
  (`DnsNames.PointerRoundTrip`). The final zero of a name is written without a check, and exactly
  when is stated by `DnsNames.ZeroBehindBuffer`, with `DnsNames.ZeroBehindTwoBytes` as input.
- The bucket update is the plain formula exactly when the bucket is not overfull, or would be
  refilled even so (`RateLimit.RefillIsMin`, `RateLimit.OverfullGrows`). It empties a bucket with
  something in it exactly when `RateLimit.Stays` fails (`RateLimit.RefillPositive`,
  `RateLimit.OverfullTurnsNegative`).
- `evtag_peek_length` and `evtag_consume` agree exactly when `Tagging.PeekIsConsumed` says
  (`Tagging.ConsumesMore`). A time that is marshalled comes back exactly when `Tagging.TimevalBack`
  says.
- A repeating event is pending again after its timeout exactly when `EventRuns.RepeatsAfterTimeout`
  says.

Where the code and a remark in it differ, the model follows the code: integers in tagged records
are written least significant nibble first, not in big-endian order as event_tagging.c:91 says.

## Model

| member | source | states |
|---|---|---|
| `Chains.NewChain` | vpncore/src/main/jni/libevent/buffer.c:155-192 | a fresh empty chain with room for the size asked for; none exactly when the size is larger than any allocation may be |
| `Chains.Append` | vpncore/src/main/jni/libevent/buffer.c:1759-1767 | writing behind the data of a block leaves the bytes before it and appends the new ones |
| `Chains.PutBefore` | vpncore/src/main/jni/libevent/buffer.c:1849-1862 | writing in front of the data of a block puts the new bytes before the old ones |
| `Chains.Align` | vpncore/src/main/jni/libevent/buffer.c:1902-1909 | moving the data to the front of the block changes no byte of it |
| `EvBuffers.EvBuffer.constructor` | vpncore/src/main/jni/libevent/buffer.c:360-374 | a new buffer satisfies the invariant and is empty |
| `EvBuffers.EvBuffer.FreeTrailingEmptyChains` | vpncore/src/main/jni/libevent/buffer.c:289-302 | exactly the chains behind the last one with data go; the slot returned is the end of the list |
| `EvBuffers.EvBuffer.ChainInsert` | vpncore/src/main/jni/libevent/buffer.c:307-326 | the invariant written down at the declaration of struct evbuffer is kept; the bytes of the chain are appended; last_with_datap is the last chain with data |
| `EvBuffers.EvBuffer.Add` | vpncore/src/main/jni/libevent/buffer.c:1722-1817 | the bytes are appended to the contents, whichever chains they go to; refused exactly when the length would not fit a size_t or an allocation; no chain is added while the last one with data has room for them, once moved to its front, and one that is added is at least twice as large as a small one before it |
| `EvBuffers.EvBuffer.Prepend` | vpncore/src/main/jni/libevent/buffer.c:1819-1899 | the bytes are put before the contents, whichever chains they go to; the same refusals |
| `EvBuffers.EvBuffer.Drain` | vpncore/src/main/jni/libevent/buffer.c:1095-1161 | exactly the first bytes are dropped, all of them if fewer are there |
| `EvBuffers.EvBuffer.CopyFrom` | vpncore/src/main/jni/libevent/buffer.c:1184-1249 | the bytes copied out are the slice of the contents from the given place |
| `EvBuffers.EvBuffer.Remove` | vpncore/src/main/jni/libevent/buffer.c:1164-1176 | what is returned followed by what is left is the old contents; as many bytes as asked for or there are |
| `Splices.AppendChain` | vpncore/src/main/jni/libevent/buffer.c:883-900 | the chains of one list behind those of another: contents joined, invariant kept |
| `Splices.PrependChain` | vpncore/src/main/jni/libevent/buffer.c:942-958 | the chains of one list before those of another: contents joined, invariant kept |
| `Splices.AddBuffer` | vpncore/src/main/jni/libevent/buffer.c:960-1004 | all bytes of one buffer move behind those of the other, which ends up empty; no chain is in both; nothing happens with a buffer and itself |
| `Splices.PrependBuffer` | vpncore/src/main/jni/libevent/buffer.c:1049-1093 | all bytes of one buffer move before those of the other, which ends up empty; no chain is in both |
| `Splices.AdvanceLastWithData` | vpncore/src/main/jni/libevent/buffer.c:702-716 | where advance_last_with_data stops, as a function of the blocks |
| `Splices.AdvanceReachesLast` | vpncore/src/main/jni/libevent/buffer.c:702-716 | advance_last_with_data finds the last chain with data exactly when no empty chain stands before data |
| `Splices.AttachBack` | vpncore/src/main/jni/libevent/buffer.c:1302-1316 | moved chains are put behind the data of the other buffer, which is well formed afterwards exactly when no empty chain is left before data |
| `Splices.TakeWhole` | vpncore/src/main/jni/libevent/buffer.c:1287-1299 | which chains are taken whole, what is left to take and where last_with_datap ends; the assertion in the loop never fires |
| `Splices.MoveWhole` | vpncore/src/main/jni/libevent/buffer.c:1287-1316 | the bytes of whole chains move; both buffers are well formed at that point if and only if CanSplit holds before |
| `Splices.RemoveBuffer` | vpncore/src/main/jni/libevent/buffer.c:1254-1342 | the whole call ends without a failed assertion and with both buffers well formed if and only if CanSplit holds before; then exactly the first min(datlen, length) bytes have moved to the end of the other buffer |
| `Splices.AddAny` | vpncore/src/main/jni/libevent/buffer.c:1722-1817 | on a buffer with data behind last_with_datap the bytes go in front of that data, or an assertion fails, exactly when the chain has no room; it stays broken; otherwise the bytes are appended |
| `Splices.SplitsWithoutEmpty` | vpncore/src/main/jni/libevent/buffer.c:1254-1342 | without an empty chain before the last one with data any number of bytes can be split off |
| `Splices.EmptyFirstChainBreaks` | vpncore/src/main/jni/libevent/buffer.c:1287-1316 | for a buffer whose first chain is empty and whose second holds five bytes, CanSplit fails for two bytes |
| `Pullups.PulledSlots` | vpncore/src/main/jni/libevent/buffer.c:1415-1450 | the four cases in which last_with_datap is repaired give the slot of the last chain with data in the new list |
| `Pullups.PulledBytes` | vpncore/src/main/jni/libevent/buffer.c:1412-1450 | the list with the new first chain holds the same bytes and has its last data where the code says |
| `Pullups.Pullup` | vpncore/src/main/jni/libevent/buffer.c:1344-1454 | contents unchanged, invariant kept; the first chain then starts with as many bytes as asked for; NULL exactly when none or too many are |
| `Reserves.ExpandFast` | vpncore/src/main/jni/libevent/buffer.c:2039-2147 | contents unchanged, no stored byte moves in memory, and at most n chains offer the space asked for |
| `Commits.ReadSetupVecs` | vpncore/src/main/jni/libevent/buffer.c:2213-2247 | the vectors are the spaces of consecutive chains from the first that has any, at most n, and together enough; with the exact flag their sum is exactly what was asked for |
| `Commits.ReserveSeveral` | vpncore/src/main/jni/libevent/buffer.c:689-694 | with two or more vectors: contents and places of stored bytes unchanged, the vectors offer the space asked for, and at most one chain is added while fewer chains than vectors are in use |
| `Commits.CheckVecs` | vpncore/src/main/jni/libevent/buffer.c:757-767 | the first pass accepts exactly the vectors that are the spaces of the chains from the first one with space on |
| `Commits.CommitLast` | vpncore/src/main/jni/libevent/buffer.c:734-745 | committing to the last chain appends the bytes; the buffer is well formed afterwards if and only if no empty chain is skipped |
| `Commits.CommitSpace` | vpncore/src/main/jni/libevent/buffer.c:718-786 | what is committed is appended, or all of it is refused and nothing changes, as the vectors decide; the buffer stays well formed if and only if bytes committed to the last chain alone skip no empty chain |
| `Commits.TakenIsJoined` | vpncore/src/main/jni/libevent/buffer.c:768-777 | committing vectors that were filled commits what they were filled with, in order |
| `Commits.WriteReserved` | vpncore/src/main/jni/libevent/buffer.c:669-786 | bytes written through any prefix of the reserved vectors and committed are appended in order |
| `SingleChain.ExpandSingleChain` | vpncore/src/main/jni/libevent/buffer.c:1927-2035 | contents unchanged, invariant kept, and one chain at or behind the last data has the space asked for; what becomes of the chains in each of the four ways to find it, and none exactly when the allocation it needs is too large |
| `SingleChain.ReserveSpace` | vpncore/src/main/jni/libevent/buffer.c:669-700 | refused without vectors; with one, all the space in one chain at or behind the last data; with more, as above; contents unchanged |
| `SingleChain.OneVecAccepted` | vpncore/src/main/jni/libevent/buffer.c:734-767 | a single vector is accepted by the commit exactly when its chain is the last one or the first one with space |
| `Reached.EmptyFirst` | vpncore/src/main/jni/libevent/buffer.c:669-786 | two vectors reserved and lengths 0 and 5 committed give an empty first chain before data |
| `Reached.RemoveBufferBreaks` | vpncore/src/main/jni/libevent/buffer.c:1254-1342 | in that state, reached by calls alone, evbuffer_remove_buffer of two bytes fails or leaves a broken buffer |
| `Reached.CommitBreaks` | vpncore/src/main/jni/libevent/buffer.c:669-786 | with three vectors reserved, committing the last alone leaves a broken buffer |
| `Pointers.LocateFrom` | vpncore/src/main/jni/libevent/buffer.c:2609-2659 | locating a byte from the start or from a chain on the way gives the same place |
| `Pointers.PtrSet` | vpncore/src/main/jni/libevent/buffer.c:2609-2659 | the position set is the one that the bytes before it determine |
| `Pointers.PtrAdd` | vpncore/src/main/jni/libevent/buffer.c:2609-2659 | adding to a position gives what setting to the sum gives, or an error exactly when the position is invalid or overflows |
| `Pointers.PtrSubtract` | vpncore/src/main/jni/libevent/buffer.c:2589-2607 | the position that many bytes earlier, or an error exactly when there is none |
| `Search.PtrMemcmp` | vpncore/src/main/jni/libevent/buffer.c:2665-2699 | the order in which memcmp puts the bytes from the position on and the pattern, however they are split into chains; -1 if there are too few bytes; 0 exactly for a match |
| `Search.MemcmpOrders` | vpncore/src/main/jni/libevent/buffer.c:2665-2699 | negative exactly if the first byte that differs is smaller |
| `Search.SearchRange` | vpncore/src/main/jni/libevent/buffer.c:2707-2769 | the least match at or after the start that ends by the end, or none if there is none; the start for an empty pattern or one too long for a ssize_t |
| `Lines.FindEolChar` | vpncore/src/main/jni/libevent/buffer.c:1488-1513 | the first CR or LF, found chunk by chunk |
| `Lines.FindByte` | vpncore/src/main/jni/libevent/buffer.c:1466-1535 | the first of the bytes looked for at or after the position, or none |
| `Lines.Strspn` | vpncore/src/main/jni/libevent/buffer.c:1537-1574 | the length of the run of CR and LF bytes |
| `Lines.SearchEol` | vpncore/src/main/jni/libevent/buffer.c:1589-1677 | for each style of line end, the first one at or after the start and its length, or none exactly when there is none |
| `Lines.ReadLn` | vpncore/src/main/jni/libevent/buffer.c:1679-1716 | line, terminator and remainder together are the old contents; no line exactly when there is no line end |
| `BufferRuns.Run` | vpncore/src/main/jni/libevent/buffer.c:669-1342 | any run of operations on two buffers, remove_buffer and reserve with commit among them, does to their contents and returns what it does and returns on two byte strings, and keeps both well formed, up to a remove_buffer that CanSplit excludes |
| `EpollTable.TableIsRight` | vpncore/src/main/jni/libevent/epolltable-internal.h:115-1164 | each of the 512 rows is what the rule says: the operation and events that turn the old interest into the wanted one, no operation, or the impossible mark |
| `Evmap.ApplyOneChange` | vpncore/src/main/jni/libevent/epoll.c:268-355 | after the retries the kernel watches the target of the change on its fd and the same as before on all others; no impossible row is reached |
| `Evmap.CoalesceOk` | vpncore/src/main/jni/libevent/evmap.c:854-939 | one more addition or removal turns a pending change that fits the kernel and the wanted interest into one that fits |
| `Evmap.AddThenDelIsNothing` | vpncore/src/main/jni/libevent/evmap.c:854-939 | what is added and deleted again before the kernel hears of it leaves no change behind |
| `Evmap.ToldOk` | vpncore/src/main/jni/libevent/evmap.c:823-939 | telling the backend, deferred or at once, keeps entries, changes and kernel in agreement |
| `Evmap.EventBase.constructor` | vpncore/src/main/jni/libevent/evmap.c:186-191 | an empty map agrees with an empty kernel |
| `Evmap.EventBase.MakeSpace` | vpncore/src/main/jni/libevent/evmap.c:203-225 | the map grows by doubling and loses nothing |
| `Evmap.EventBase.Tell` | vpncore/src/main/jni/libevent/evmap.c:854-939 | what the changelist or the kernel holds after a request to add or remove events |
| `Evmap.EventBase.IoAdd` | vpncore/src/main/jni/libevent/evmap.c:265-342 | the event is pending on its fd, or is refused exactly when a count would exceed 0xffff; it answers 1 exactly when the backend was told of a new kind; all agreement is kept |
| `Evmap.EventBase.IoDel` | vpncore/src/main/jni/libevent/evmap.c:346-409 | the event is no longer pending on its fd; it answers 1 exactly when the backend was told that a kind is gone; all agreement is kept; -1 and no change for a fd beyond the map |
| `Evmap.WantedMeans` | vpncore/src/main/jni/libevent/evmap.c:265-409 | a kind is wanted exactly if an event pending on the fd waits for it |
| `Evmap.EventBase.ApplyChanges` | vpncore/src/main/jni/libevent/epoll.c:357-374 | after all changes the kernel watches, on every fd, exactly the kinds that events are pending for |
| `Evmap.EventBase.RemoveAll` | vpncore/src/main/jni/libevent/evmap.c:767-786 | the changelist is empty, no entry points into it, and its assertion holds |
| `Evmap.EventBase.Dispatch` | vpncore/src/main/jni/libevent/epoll.c:415-463 | before waiting, kernel and pending events agree and the changelist is empty |
| `Evmap.EventBase.ReinitOne` | vpncore/src/main/jni/libevent/evmap.c:595-623 | one more entry agrees with the new kernel object |
| `Evmap.EventBase.Reinit` | vpncore/src/main/jni/libevent/event.c:1006-1026 | with a new kernel object all entries are told again; nothing pending is lost |
| `Evmap.EventBase.Close` | vpncore/src/main/jni/libevent/epoll.c:268-355 | the kernel may forget a closed fd on which nothing is pending; the changes still fit |
| `Evmap.SameKernel` | vpncore/src/main/jni/libevent/epoll.c:357-413 | two kernels in step with the same pending events watch the same |
| `Evmap.Lockstep` | vpncore/src/main/jni/libevent/evmap.c:265-939 | over every run, the backend with a changelist and the one without have the same events pending, and after each dispatch the same kernel, namely the kinds with a non-zero count |
| `MinHeap.TopIsEarliest` | vpncore/src/main/jni/libevent/minheap-internal.h:69-69 | no event in the heap is earlier than the top |
| `MinHeap.ShiftUp` | vpncore/src/main/jni/libevent/minheap-internal.h:149-171 | heap order and back indices are restored when one event may be too low; the same events stay in |
| `MinHeap.ShiftDown` | vpncore/src/main/jni/libevent/minheap-internal.h:173-186 | heap order and back indices are restored when one event may be too high; the same events stay in |
| `MinHeap.Push` | vpncore/src/main/jni/libevent/minheap-internal.h:71-77 | the event is in the heap, all others as before; order and back indices kept |
| `MinHeap.Replaced` | vpncore/src/main/jni/libevent/minheap-internal.h:96-115 | the last event put in place of the erased one needs to move up or down, not both, and the test tells which |
| `MinHeap.Erase` | vpncore/src/main/jni/libevent/minheap-internal.h:96-115 | exactly that event leaves the heap; order and back indices kept |
| `EventLoop.EventBase.constructor` | vpncore/src/main/jni/libevent/event.c:1196-1234 | a new base satisfies the invariant |
| `EventLoop.EventBase.InsertInserted` | vpncore/src/main/jni/libevent/event.c:3309-3323 | flag and event_count agree; nothing else changes |
| `EventLoop.EventBase.RemoveInserted` | vpncore/src/main/jni/libevent/event.c:3172-3183 | flag and event_count agree; nothing else changes |
| `EventLoop.EventBase.InsertActive` | vpncore/src/main/jni/libevent/event.c:3325-3344 | the callback goes to the end of the queue of its priority, once; flags, queues and counters agree |
| `EventLoop.EventBase.RemoveActive` | vpncore/src/main/jni/libevent/event.c:3184-3199 | the callback leaves the queue of its priority, the others stay in order; flags, queues and counters agree |
| `EventLoop.EventBase.InsertLater` | vpncore/src/main/jni/libevent/event.c:3346-3361 | the callback is put off unless it is active or put off already; flags, queues and counters agree |
| `EventLoop.EventBase.RemoveLater` | vpncore/src/main/jni/libevent/event.c:3200-3214 | the callback is no longer put off; flags, queues and counters agree |
| `EventLoop.EventBase.RemoveTimeout` | vpncore/src/main/jni/libevent/event.c:3215-3235 | the event leaves the heap or the list its deadline names; flags, queues and counters agree |
| `EventLoop.EventBase.PlaceInOrder` | vpncore/src/main/jni/libevent/event.c:3279-3307 | the place found from the end: nothing before it is later, everything behind it is |
| `EventLoop.EventBase.InsertTimeout` | vpncore/src/main/jni/libevent/event.c:3363-3385 | the event enters the heap or the list its deadline names, which stays sorted; flags, queues and counters agree |
| `EventLoop.EventBase.Del` | vpncore/src/main/jni/libevent/event.c:2760-2844 | no flag and no queue holds the event, unless it is being finalised; the timers of common timeouts stay set |
| `EventLoop.EventBase.Activate` | vpncore/src/main/jni/libevent/event.c:2951-2979 | the callback is active and not put off; the answer says whether it was neither before |
| `EventLoop.EventBase.MakeActive` | vpncore/src/main/jni/libevent/event.c:2864-2913 | the event is active with the reasons joined; the invariant with the timers is kept |
| `EventLoop.EventBase.MakeActiveLater` | vpncore/src/main/jni/libevent/event.c:2923-2992 | the event is put off with the reasons joined, unless it is active |
| `EventLoop.EventBase.Cancel` | vpncore/src/main/jni/libevent/event.c:3013-3041 | an event is deleted, a bare callback leaves the active queues; nothing when finalising |
| `EventLoop.DeadlineGood` | vpncore/src/main/jni/libevent/event.c:2656-2679 | the new deadline is as far from now as asked for and carries the mark of its common timeout, and only that |
| `EventLoop.EventBase.SetTimeout` | vpncore/src/main/jni/libevent/event.c:2616-2685 | the event is in the queue its new deadline names and nowhere else, no longer active because of its old timeout |
| `EventLoop.EventBase.Schedule` | vpncore/src/main/jni/libevent/event.c:1406-1413 | the timer of a list is in the heap with the deadline of its head; then all timers are set |
| `EventLoop.EventBase.AddTimeout` | vpncore/src/main/jni/libevent/event.c:2612-2705 | with a timeout added, every common-timeout list that is not empty has its timer active or in the heap no later than its head |
| `EventDispatch.Add` | vpncore/src/main/jni/libevent/event.c:2546-2716 | what adding an event changes, with or without a timeout, and that a refusal changes nothing; the whole invariant is kept |
| `EventDispatch.TimeoutNext` | vpncore/src/main/jni/libevent/event.c:3087-3122 | with nothing active, the sleep never goes past the earliest pending deadline and ends at one, is nil exactly if one has passed, and is for ever only if there is none |
| `EventLoop.TimerAddIsSum` | vpncore/src/main/jni/libevent/include/event2/util.h:515-526 | the sum of two times in seconds and microseconds is their sum in microseconds |
| `EventDispatch.TimeoutProcess` | vpncore/src/main/jni/libevent/event.c:3125-3149 | exactly the events of the heap whose time has come are made active; one that has run out and is still pending is in a list whose timer is active |
| `EventRuns.CommonTimeoutCallback` | vpncore/src/main/jni/libevent/event.c:1418-1439 | exactly the leading events of the list whose time has come are made active, no other event changes, and the timer is set for the next |
| `EventRuns.NextRunGood` | vpncore/src/main/jni/libevent/event.c:1521-1568 | a repeating event is never set for a time in the past, and keeps the mark of its common timeout |
| `EventRuns.PersistClosure` | vpncore/src/main/jni/libevent/event.c:1518-1568 | a repeating event is pending again, in the event map too if it had left it, at the time it was due plus its interval if it timed out and that is not over, and an interval from now otherwise; nothing changes when the map refuses; the assertion about the marks holds |
| `EventRuns.NextRunIsDue` | vpncore/src/main/jni/libevent/event.c:1521-1568 | the time computed for the next run, in microseconds: one interval after the last deadline if the event ran because of it and that is not past, otherwise one interval from now |
| `EventRuns.KeepsRhythm` | vpncore/src/main/jni/libevent/event.c:1518-1568 | a repeating event that is always served before it is due once more does not drift: run number k is due after exactly k intervals |
| `EventRuns.RepeatsAfterTimeout` | vpncore/src/main/jni/libevent/event.c:1518-1568 | a repeating event whose timeout fired is pending again, at its next deadline exactly, if and only if it waits for no fd or the event map takes it; otherwise it is pending nowhere |
| `EventRuns.TakeFirst` | vpncore/src/main/jni/libevent/event.c:1600-1622 | the first callback of a queue leaves it, deleted unless it is persistent |
| `EventRuns.RunOne` | vpncore/src/main/jni/libevent/event.c:1590-1706 | the first callback of the queue is taken and, if it repeats, added again with its fd and its timeout unless the event map refuses; or it fires its common timeout list; no other event changes; the whole invariant is kept |
| `EventRuns.MakeLaterActive` | vpncore/src/main/jni/libevent/event.c:3387-3400 | every callback that was put off is active, all others are as they were, the counters still agree |
| `EventRuns.InitCommonTimeout` | vpncore/src/main/jni/libevent/event.c:1443-1515 | the marked duration returned is a common timeout of the base with the normalised value asked for; none exactly when the table is full and has no such duration; a new one exactly when it had none |
| `EventTraces.Run` | vpncore/src/main/jni/libevent/event.c:2546-3400 | every run keeps each callback in exactly the queues its flags name, at its priority, the counters right, the lists sorted and their timers set; what each step of it does to each event is Moved |
| `EventTraces.QuietUntilAsked` | vpncore/src/main/jni/libevent/event.c:2546-3400 | in every run an event that is not pending stays so, and its callback is not run, until somebody adds or activates it |
| `EventTraces.NoRunAfterDel` | vpncore/src/main/jni/libevent/event.c:2737-2843 | after event_del, whatever queues the event was in, its callback does not run before it is asked for again |
| `EventTraces.OneRunPerAsk` | vpncore/src/main/jni/libevent/event.c:1590-1706 | between two runs of a one-shot event somebody added or activated it |
| `EventTraces.PersistentStays` | vpncore/src/main/jni/libevent/event.c:1518-1706 | a persistent event stays in the event map however often it runs, until somebody deletes it or sets it anew |
| `DnsNames.NameParse` | vpncore/src/main/jni/libevent/evdns.c:959-1013 | terminates on every packet and position, reads inside the packet and writes inside the buffer; succeeds exactly when the name can be read with at most as many jumps as bytes and fits; then the text and the end are right |
| `DnsNames.AtReads` | vpncore/src/main/jni/libevent/evdns.c:959-1013 | a name written with pointers that lead backwards is read, whatever the number of pointers |
| `DnsNames.JoinSplit` | vpncore/src/main/jni/libevent/evdns.c:1623-1652 | the pieces of a name joined by dots are the name |
| `DnsNames.MeaningIsSplit` | vpncore/src/main/jni/libevent/evdns.c:1588-1663 | a name reads back as all its pieces exactly when no piece but the last is empty |
| `DnsNames.EmptyPieceCuts` | vpncore/src/main/jni/libevent/evdns.c:1588-1663 | a concrete name with an empty piece that does not read back |
| `DnsNames.PointerRoundTrip` | vpncore/src/main/jni/libevent/evdns.c:1625-1628 | the two bytes of a pointer lead back to its target exactly when the target is within fourteen bits |
| `DnsNames.LabelTable.GetPos` | vpncore/src/main/jni/libevent/evdns.c:1559-1568 | the place of the first entry with exactly that name, or -1 exactly when there is none |
| `DnsNames.LabelTable.Add` | vpncore/src/main/jni/libevent/evdns.c:1571-1586 | the entry is appended, or dropped exactly when the table is full |
| `DnsNames.DnsnameToLabels` | vpncore/src/main/jni/libevent/evdns.c:1599-1663 | the value returned, errors and length included, is Outcome of the table before the call and the lengths; the table then holds the suffixes that were written out, at their offsets, in order, up to its size, and a part of them after a failure; the name and every entry of the table read back if it is sound to go by the table |
| `DnsNames.RowsFound` | vpncore/src/main/jni/libevent/evdns.c:1559-1597 | every suffix of the name that was written out is found in the table at the offset it was written to |
| `DnsNames.SecondTime` | vpncore/src/main/jni/libevent/evdns.c:1599-1663 | a name that was written before takes two bytes, as long as the table is not full |
| `DnsNames.TwiceTheSame` | vpncore/src/main/jni/libevent/evdns.c:1599-1663 | the name a written twice: three bytes, and then the two of a pointer to the first |
| `DnsNames.ZeroBehindBuffer` | vpncore/src/main/jni/libevent/evdns.c:1626-1660 | the final zero is written behind the buffer if and only if a name with a last piece and no known tail fills it exactly |
| `DnsNames.ZeroBehindTwoBytes` | vpncore/src/main/jni/libevent/evdns.c:1626-1660 | the name a at 0 in a buffer of two bytes takes three |
| `DnsNames.RoomIsEnough` | vpncore/src/main/jni/libevent/evdns.c:1599-1663 | two bytes more than the text are always enough for a name with short pieces |
| `DnsNames.RequestFits` | vpncore/src/main/jni/libevent/evdns.c:1665-1705 | the length computed for a request has room for any name of up to 255 bytes with short pieces and for what follows; with a long piece the answer is -1 |
| `DnsNames.WriteNames` | vpncore/src/main/jni/libevent/evdns.c:1890-1985 | of any names written through one table, with other bytes between them: where the message ends, or the error of the first that does not fit, as MessageEnd says; the bytes between them are in place; a repeated name takes two bytes while the table is not full; every name and every table entry reads back in the finished message, and reading ends where writing did, if the last name starts in the first 0x4000 bytes |
| `DnsNames.ParseBack` | vpncore/src/main/jni/libevent/evdns.c:959-1013 | an accepted name without empty pieces comes back byte for byte in a buffer of 256 bytes |
| `DnsTable.FreeIdExists` | vpncore/src/main/jni/libevent/evdns.c:1317-1329 | with at most 65000 requests in flight there is a free transaction id |
| `DnsTable.SentBound` | vpncore/src/main/jni/libevent/evdns.c:2160-2286 | no request is transmitted more than (reissues + 1) * retransmits times |
| `DnsTable.ReissueTx` | vpncore/src/main/jni/libevent/evdns.c:714-735 | a reissue starts the count of transmissions anew without exceeding the bound |
| `DnsRequests.DnsBase.constructor` | vpncore/src/main/jni/libevent/evdns.c:3934-3941 | a new resolver satisfies the invariant |
| `DnsRequests.DnsBase.Pick` | vpncore/src/main/jni/libevent/evdns.c:1334-1367 | the first server that is up, from the one whose turn it is on around the circle; the next one on if none is; none only without servers; the turn moves on; the assertion in it holds |
| `DnsRequests.DnsBase.SwapNs` | vpncore/src/main/jni/libevent/evdns.c:544-553 | the request has the new server and both counts follow; the assertion in it holds |
| `DnsRequests.DnsBase.Failed` | vpncore/src/main/jni/libevent/evdns.c:557-615 | the server is down, the number of good servers right, and with another one up no unsent request stays with it and each that moved is with one that is up; nothing changes for a server that is down already |
| `DnsRequests.DnsBase.Up` | vpncore/src/main/jni/libevent/evdns.c:617-636 | the server is up and the number of good servers right |
| `DnsRequests.DnsBase.Find` | vpncore/src/main/jni/libevent/evdns.c:468-483 | looking at one bucket finds the request in flight with an id, or there is none |
| `DnsRequests.DnsBase.PickId` | vpncore/src/main/jni/libevent/evdns.c:1317-1329 | the id picked is the first of those drawn that is not 0xffff and not in flight; with a fair source the search ends |
| `DnsRequests.DnsBase.Transmit` | vpncore/src/main/jni/libevent/evdns.c:2237-2286 | the new requests and servers for each answer of the socket and for a choked server; afterwards the request is marked only if its server is choked |
| `DnsRequests.DnsBase.TransmitAll` | vpncore/src/main/jni/libevent/evdns.c:2344-2366 | without socket errors each marked request goes out at most once, nothing else changes, and only requests of choked servers stay marked |
| `DnsRequests.DnsBase.Submit` | vpncore/src/main/jni/libevent/evdns.c:2746-2841 | in flight exactly if there is room and a server, and then with the server whose turn it is, sent or held up by a choked server; otherwise last in the waiting queue |
| `DnsRequests.DnsBase.Pump` | vpncore/src/main/jni/libevent/evdns.c:742-770 | nothing waits while there is room and a server; those that waited longest move up; nothing in flight leaves; if something moved up and no socket reported an error, every request in flight is sent or held up by a choked server |
| `DnsRequests.DnsBase.Finish` | vpncore/src/main/jni/libevent/evdns.c:648-706 | exactly that request is gone, from flight or waiting, with all counts; nothing waits while there is room and a server |
| `DnsRequests.DnsBase.Timeout` | vpncore/src/main/jni/libevent/evdns.c:2160-2196 | given up exactly when it was sent often enough, and its server is down; otherwise sent once more, to a server that is up if there is one, or marked because a socket refused it, and one server is blamed for the timeout |
| `DnsRequests.DnsBase.Reissue` | vpncore/src/main/jni/libevent/evdns.c:714-735 | on another server with its count of transmissions at zero, or unchanged; moved, to one that is up, whenever there is such a server and the old one is down |
| `DnsRequests.DnsBase.FailOver` | vpncore/src/main/jni/libevent/evdns.c:899-907 | the server that refused is down, and a request that was sent is reissued to another one that is up if there was one |
| `DnsRequests.DnsBase.Reply` | vpncore/src/main/jni/libevent/evdns.c:867-957 | what each kind of reply does: an answer finishes the request and its server is up; a server that refuses is down and the request reissued to another that is up, with its count at zero, unless it was reissued too often; a failure of the server is treated as a timeout; no other request changes but to be sent |
| `DnsRequests.DnsBase.SetMaxInflight` | vpncore/src/main/jni/libevent/evdns.c:3385-3414 | every request in flight is in the bucket of its id in the new table |
| `DnsRequests.CountersAreSizes` | vpncore/src/main/jni/libevent/evdns.c:311-328 | counters equal list sizes, each server counts the requests assigned to it, and a free id exists |
| `DnsRequests.SentAtMost` | vpncore/src/main/jni/libevent/evdns.c:2160-2286 | in every state reached, every request was sent at most (reissues + 1) * retransmits times |
| `DnsTraces.Run` | vpncore/src/main/jni/libevent/evdns.c:544-957 | every run of submissions, replies, timeouts, cancellations, server failures and resizes keeps the invariant of the table and does at each step to the requests what Stepped says; no request in flight is ever forgotten: it is marked to be sent or its timer is set |
| `DnsTraces.Receive` | vpncore/src/main/jni/libevent/evdns.c:1040-1048 | a reply changes nothing but the one request in flight with its id, if there is one, and an answer ends that |
| `DnsTraces.NeverLost` | vpncore/src/main/jni/libevent/evdns.c:544-957 | in every run a request stays until its cancellation, its timeout or a reply to it; once in flight it stays in flight under the same id, so that a reply with that id is for it |
| `DnsTraces.OverIsOver` | vpncore/src/main/jni/libevent/evdns.c:544-957 | a request that is over stays over until it is made again |
| `DnsTraces.AnsweredOnce` | vpncore/src/main/jni/libevent/evdns.c:867-957 | between two answers to a request it was made anew |
| `RateLimit.RefillIsMin` | vpncore/src/main/jni/libevent/bufferevent_ratelim.c:84-108 | the update that avoids overflow equals min(burst, limit + ticks * rate) if and only if the bucket is not overfull or the ticks refill even the wrapped room |
| `RateLimit.OverfullGrows` | vpncore/src/main/jni/libevent/bufferevent_ratelim.c:95-98 | a concrete overfull bucket that the update does not cut back |
| `RateLimit.RefillPositive` | vpncore/src/main/jni/libevent/bufferevent_ratelim.c:95-105 | the update leaves something in a bucket that is not empty if and only if Stays holds |
| `RateLimit.OverfullTurnsNegative` | vpncore/src/main/jni/libevent/bufferevent_ratelim.c:95-98 | a concrete overfull bucket that the update makes negative |
| `RateLimit.NeverMore` | vpncore/src/main/jni/libevent/bufferevent_ratelim.c:73-111 | bytes charged over any span, none more than offered, never exceed burst + rate * ticks credited |
| `RateLimit.UpdateByDistance` | vpncore/src/main/jni/libevent/bufferevent_ratelim.c:73-124 | ticks are counted across the wrap of the clock, and a clock that goes back by 2^31 ticks or fewer changes nothing |
| `RateLimit.CreditedIsElapsed` | vpncore/src/main/jni/libevent/bufferevent_ratelim.c:73-124 | as long as the clock goes forward the ticks credited are the time that has passed |
| `RateLimit.NeverMoreThanTime` | vpncore/src/main/jni/libevent/bufferevent_ratelim.c:73-258 | over any time the bytes charged are at most the burst and the rate times that time |
| `RateLimit.Limiter.UpdateBuckets` | vpncore/src/main/jni/libevent/bufferevent_ratelim.c:73-124 | both buckets are updated by the same ticks; the agreement of buckets, suspensions and the refill event is kept if and only if Stays holds for each direction in use |
| `RateLimit.Limiter.Max` | vpncore/src/main/jni/libevent/bufferevent_ratelim.c:197-258 | the part of the bucket: what is offered is what the updated bucket holds, or nothing |
| `RateLimit.Limiter.Decrement` | vpncore/src/main/jni/libevent/bufferevent_ratelim.c:272-346 | suspended exactly when the bucket is empty; a refill is pending exactly when one was and is still needed, or the bucket is empty now |
| `RateLimit.Limiter.DecrementLimit` | vpncore/src/main/jni/libevent/bufferevent_ratelim.c:971-1025 | suspended exactly when a charge takes the bucket to zero or below and released exactly when one takes it above; what becomes of the pending refill; whatever the sign of the charge |
| `RateLimit.Limiter.RefillCallback` | vpncore/src/main/jni/libevent/bufferevent_ratelim.c:393-439 | exactly the directions with something in the bucket are released; a refill is pending exactly if one is left suspended; the agreement is kept if and only if Stays holds for each direction in use |
| `RateLimit.Limiter.SetRateLimit` | vpncore/src/main/jni/libevent/bufferevent_ratelim.c:559-636 | limits, suspensions and the pending refill agree under the new configuration; nothing changes for the configuration that is set already; without a configuration nothing is suspended |
| `RateLimit.NewConfigGainsNothing` | vpncore/src/main/jni/libevent/bufferevent_ratelim.c:49-71 | a first configuration grants one tick; a new one takes away what is more than its burst and nothing else |
| `RateLimit.RunSteps` | vpncore/src/main/jni/libevent/bufferevent_ratelim.c:73-439 | in any run an empty bucket suspends its direction and a suspension waits for a refill; the run computes NextAll |
| `RateLimit.Serve` | vpncore/src/main/jni/libevent/bufferevent_ratelim.c:73-346 | for any wishes served through the offers and the charges, the buckets end as the same ticks and charges leave them, and the bytes moved in each direction never exceed burst + rate * ticks credited |
| `RateLimit.ServeOne` | vpncore/src/main/jni/libevent/bufferevent_ratelim.c:197-346 | a wish is served in full, or as far as the bucket goes, which is empty then |
| `RateGroup.Suspend` | vpncore/src/main/jni/libevent/bufferevent_ratelim.c:349-389 | every member whose lock could be taken is suspended |
| `RateGroup.Unsuspend` | vpncore/src/main/jni/libevent/bufferevent_ratelim.c:445-523 | every member is visited exactly once from a random start; another pass is pending exactly if a lock could not be taken |
| `RateGroup.ReleasedOk` | vpncore/src/main/jni/libevent/bufferevent_ratelim.c:487-523 | a member that still carries the flag after a pass will be looked at again |
| `RateGroup.Group.Decrement` | vpncore/src/main/jni/libevent/bufferevent_ratelim.c:294-305 | suspended exactly when the bucket is empty, with the flag set or cleared on exactly the members whose locks are free; no member is left suspended for good |
| `RateGroup.Group.DecrementLimit` | vpncore/src/main/jni/libevent/bufferevent_ratelim.c:1027-1065 | suspended or released exactly when the charge takes the limit across zero, and then exactly the members whose locks are free; no member is left suspended for good |
| `RateGroup.EveryMember` | vpncore/src/main/jni/libevent/bufferevent_ratelim.c:349-523 | a stop stops and a release releases every member whose lock is free; for one that is locked the flag stays and a release leaves another pass pending |
| `RateGroup.ChargeDecides` | vpncore/src/main/jni/libevent/bufferevent_ratelim.c:294-305 | with no lock held elsewhere, after a charge every member is suspended exactly if the bucket is empty |
| `RateGroup.ChangeDecides` | vpncore/src/main/jni/libevent/bufferevent_ratelim.c:1027-1065 | the same for a change of the limit, where the group is suspended exactly if its bucket is empty |
| `RateGroup.RefillReleases` | vpncore/src/main/jni/libevent/bufferevent_ratelim.c:528-557 | with no lock held elsewhere a refill to the minimal share releases every member, and one below it changes nothing |
| `RateGroup.Group.Share` | vpncore/src/main/jni/libevent/bufferevent_ratelim.c:228-252 | a member passed over while its group was suspended is suspended here; otherwise its share is Portion of the group |
| `RateGroup.PortionDivides` | vpncore/src/main/jni/libevent/bufferevent_ratelim.c:244-250 | nothing for a suspended group; otherwise the limit divided by the number of members, rounded down, unless that is less than the minimal share, which it is then |
| `RateGroup.RlimMax` | vpncore/src/main/jni/libevent/bufferevent_ratelim.c:197-258 | the own limit, or without one the largest single operation, cut at the share of the group, and never negative |
| `RateGroup.Group.AddMember` | vpncore/src/main/jni/libevent/bufferevent_ratelim.c:735-780 | the new member is suspended exactly if its group is |
| `RateGroup.Group.RemoveMember` | vpncore/src/main/jni/libevent/bufferevent_ratelim.c:788-810 | exactly that member leaves, without the flag if so asked and with it as it was if not; no other flag changes |
| `RateGroup.Group.SetMinShare` | vpncore/src/main/jni/libevent/bufferevent_ratelim.c:703-722 | the minimal share is at most one tick of either rate |
| `RateGroup.Group.SetCfg` | vpncore/src/main/jni/libevent/bufferevent_ratelim.c:672-701 | limits are clipped to the new bursts and the minimal share follows |
| `RateGroup.Group.RefillCallback` | vpncore/src/main/jni/libevent/bufferevent_ratelim.c:528-557 | both buckets are updated by the same ticks; a direction is suspended afterwards exactly if it was and still has less than the minimal share, and one that is released or has a pass pending releases exactly the members whose locks are free |
| `RateGroup.Group.QuietTicks` | vpncore/src/main/jni/libevent/bufferevent_ratelim.c:528-557 | a group that is not charged is released once the ticks bring what is missing to the minimal share, whatever locks were held |
| `RateGroup.RunSteps` | vpncore/src/main/jni/libevent/bufferevent_ratelim.c:272-1065 | in any run, whatever locks are held elsewhere at each step, no member of the group is left suspended for good; the run computes NextAll |
| `RateGroup.FirstDoesNotMatter` | vpncore/src/main/jni/libevent/bufferevent_ratelim.c:445-486 | the random member that a pass starts with decides nothing about where any run ends |
| `Tagging.IntRoundTrip` | vpncore/src/main/jni/libevent/event_tagging.c:117-150 | an integer encoded anywhere in a buffer decodes to itself and its own length |
| `Tagging.EncodeIntInternal` | vpncore/src/main/jni/libevent/event_tagging.c:117-150 | the bytes written are the count and the nibbles of the number, least significant first |
| `Tagging.TagRoundTrip` | vpncore/src/main/jni/libevent/event_tagging.c:173-242 | a tag of 32 bits decodes to itself whatever follows |
| `Tagging.EncodeTagInternal` | vpncore/src/main/jni/libevent/event_tagging.c:173-194 | the bytes written are the groups of seven bits of the tag |
| `Tagging.DecodeTag` | vpncore/src/main/jni/libevent/event_tagging.c:196-248 | the tag at the front of the buffer, drained or not, or an error exactly when there is none of 32 bits |
| `Tagging.DecodeIntAt` | vpncore/src/main/jni/libevent/event_tagging.c:315-373 | the integer at an offset, or an error exactly when there is none of that size; nothing is drained and nothing wraps around |
| `Tagging.UnmarshalHeader` | vpncore/src/main/jni/libevent/event_tagging.c:437-451 | tag and length, and what is left in the buffer in every case of failure |
| `Tagging.Unmarshal` | vpncore/src/main/jni/libevent/event_tagging.c:466-480 | the payload moves to the end of the other buffer, or what is left in every case of failure |
| `Tagging.Consume` | vpncore/src/main/jni/libevent/event_tagging.c:453-462 | what is left after a record is skipped, in every case |
| `Tagging.PeekLength` | vpncore/src/main/jni/libevent/event_tagging.c:401-417 | the bytes of the record in 32 bits; the buffer keeps its contents |
| `Tagging.PeekIsConsumed` | vpncore/src/main/jni/libevent/event_tagging.c:401-462 | with a whole record there, consuming drains as many bytes as peeking says if and only if the length is a C int or nothing follows; it fails exactly for the one length that reads as an error, and takes everything for the other lengths that are no C int |
| `Tagging.ConsumesMore` | vpncore/src/main/jni/libevent/event_tagging.c:401-462 | a payload of 2^31 bytes with a byte behind it, for which the two disagree |
| `Tagging.Marshal` | vpncore/src/main/jni/libevent/event_tagging.c:256-263 | tag, length and payload are appended |
| `Tagging.RecordBack` | vpncore/src/main/jni/libevent/event_tagging.c:256-480 | a record at the front of a buffer comes back as it went in, with the rest left |
| `Tagging.MarshalAll` | vpncore/src/main/jni/libevent/event_tagging.c:256-263 | the records are appended one after another |
| `Tagging.UnmarshalAll` | vpncore/src/main/jni/libevent/event_tagging.c:466-480 | any list of records with payloads up to INT_MAX is read again, in order, with nothing left |
| `Tagging.UnmarshalInt` | vpncore/src/main/jni/libevent/event_tagging.c:484-534 | the integer of a record with the wanted tag, or what is left in every case of failure; IntRecord and OtherTag say what these are |
| `Tagging.OtherTag` | vpncore/src/main/jni/libevent/event_tagging.c:484-534 | a record with another tag is refused, and only its tag is gone |
| `Tagging.OtherTimeTag` | vpncore/src/main/jni/libevent/event_tagging.c:579-606 | a time record with another tag is refused, and all of it is gone |
| `Tagging.CutRefused` | vpncore/src/main/jni/libevent/event_tagging.c:437-606 | a record that is cut anywhere is refused by every way to read one |
| `Tagging.IntTooLarge` | vpncore/src/main/jni/libevent/event_tagging.c:322-373 | a number that needs more nibbles than are allowed is refused; with IntRoundTrip, exactly such a number is |
| `Tagging.LengthTooLarge` | vpncore/src/main/jni/libevent/event_tagging.c:401-451 | a length of 2^32 or more is refused, however many bytes follow |
| `Tagging.IntBeyondPayload` | vpncore/src/main/jni/libevent/event_tagging.c:484-534 | an integer that reaches beyond its payload is refused, and the payload is gone |
| `Tagging.HugeRefused` | vpncore/src/main/jni/libevent/event_tagging.c:466-482 | a record whose length is no C int is refused, with its header gone and its payload left |
| `Tagging.MarshalInt` | vpncore/src/main/jni/libevent/event_tagging.c:276-297 | a record is appended whose payload is the encoded integer |
| `Tagging.IntRecordBack` | vpncore/src/main/jni/libevent/event_tagging.c:276-297 | 32-bit and 64-bit integers written as records are read again |
| `Tagging.UnmarshalTimeval` | vpncore/src/main/jni/libevent/event_tagging.c:579-605 | the time of a record with the wanted tag, or what is left in every case of failure |
| `Tagging.MarshalTimeval` | vpncore/src/main/jni/libevent/event_tagging.c:306-313 | a record is appended whose payload is the two encoded parts, each cut to 32 bits |
| `Tagging.TimeRecordBack` | vpncore/src/main/jni/libevent/event_tagging.c:306-313 | times of 32 bits written as records are read again |
| `Tagging.TimevalBack` | vpncore/src/main/jni/libevent/event_tagging.c:306-313 | a time written comes back the same if and only if neither part is negative or needs more than 32 bits |
| `Arc4.PermHasAll` | vpncore/src/main/jni/libevent/arc4random.c:96-105 | the 256 different bytes of the state are all the bytes there are |
| `Arc4.UnmixMix` | vpncore/src/main/jni/libevent/arc4random.c:107-122 | one exchange keeps a permutation and can be taken back, whatever was mixed in |
| `Arc4.MixIsInjective` | vpncore/src/main/jni/libevent/arc4random.c:425-437 | no two states lead to the same one |
| `Arc4.StreamUnwinds` | vpncore/src/main/jni/libevent/arc4random.c:425-450 | any run of output bytes can be unwound to the state it started from |
| `Arc4.AddKeepsPerm` | vpncore/src/main/jni/libevent/arc4random.c:107-122 | mixing in data of any length keeps a permutation and moves i once around |
| `Arc4.EveryByteCounts` | vpncore/src/main/jni/libevent/arc4random.c:107-122 | data of at most 256 bytes that differs in one byte leads to another state |
| `Arc4.FirstBytes` | vpncore/src/main/jni/libevent/arc4random.c:425-437 | the first bytes of the stream from the initial state: 2, 5, 7 |
| `Arc4.Arc4Stream.constructor` | vpncore/src/main/jni/libevent/arc4random.c:96-105 | the initial state is the identity permutation |
| `Arc4.Arc4Stream.AddRandom` | vpncore/src/main/jni/libevent/arc4random.c:107-122 | 256 exchanges with the data repeated, in place; still a permutation |
| `Arc4.Arc4Stream.GetByte` | vpncore/src/main/jni/libevent/arc4random.c:425-437 | one exchange in place and the byte it gives; still a permutation |
| `Arc4.Arc4Stream.AddRandomAll` | vpncore/src/main/jni/libevent/arc4random.c:465-480 | all the data is mixed in, 256 bytes at a time |
| `Arc4.MinIsRemainder` | vpncore/src/main/jni/libevent/arc4random.c:531-541 | the bound computed without 64-bit arithmetic is 2^32 mod upper_bound, for every upper_bound from 2 on |
| `Arc4.NoBias` | vpncore/src/main/jni/libevent/arc4random.c:522-555 | each result has exactly floor(2^32 / upper_bound) accepted words |
| `Arc4.Uniform` | vpncore/src/main/jni/libevent/arc4random.c:522-555 | the remainder of the first accepted word; all words before it are below the bound |
| `Arc4Random.StirredResets` | vpncore/src/main/jni/libevent/arc4random.c:372-410 | seeding sets the counter anew unless no source has ever worked |
| `Arc4Random.TurnsAreStream` | vpncore/src/main/jni/libevent/arc4random.c:497-509 | without a seeding in between the bytes are those of the stream |
| `Arc4Random.Generator.Stir` | vpncore/src/main/jni/libevent/arc4random.c:339-410 | the seed data is mixed in and, once a source has worked, 3072 bytes are thrown away |
| `Arc4Random.Generator.Fill` | vpncore/src/main/jni/libevent/arc4random.c:497-509 | the buffer holds, from its end to its beginning, the bytes of the stream with the seedings in it |
| `Arc4Random.Generator.Random` | vpncore/src/main/jni/libevent/arc4random.c:484-494 | four bytes of the stream as a number, after a seeding if one is due |
| `Arc4Random.WordBytes` | vpncore/src/main/jni/libevent/arc4random.c:439-449 | the four bytes are in the number from the highest to the lowest |
| `Arc4Random.Run` | vpncore/src/main/jni/libevent/arc4random.c:372-509 | in any run the state stays a permutation, and at most 1600003 bytes are handed out between two seedings; where it ends depends on the calls and the seeds alone |

## Left out

- Freezing, pinned, reference, file-segment and multicast chains, and the callbacks of an evbuffer.
- Allocation failure, except where a size is larger than any allocation may be.
- Locks, condition variables and waking another thread; every locked section is one step.
- System calls: only their effect on the state is modelled, with a free choice of the answer.
- Edge-triggered events, signals in the event map, and errors of epoll_ctl other than EEXIST and ENOENT.
- Search lists, probe requests, suspending and clearing a resolver, resolv.conf and hosts files.
- The length field that evdns_server_request_format_response writes back before a name; it changes no name.
- Finalisation of events is a flag that is given; the calls that set it are not modelled.
- evtag_unmarshal_fixed, evtag_unmarshal_string and evtag_marshal_buffer: easy variants of what is there.
- bufferevents themselves, other than their rate limits.
- Where the seed of arc4random comes from; seed data is arbitrary, and so is which source of it works.
- DnsNames.WriteNames: requires one byte behind the buffer, for the zero that is written without a check; from where in it pointers no longer lead, nothing is said about reading back.
- DnsRequests.DnsBase.Up: the probe request that is cancelled is not modelled.
- RateLimit.Limiter.Max: the part of the bucket only; RateGroup.RlimMax is the whole.
- Splices.RemoveBuffer: where an assertion of the source fails the model stops.
- BufferRuns.Run: space is reserved in two or more vectors and all that was written is committed.
- Tagging.DecodeTag: the sixth byte, which the source looks at before it gives up, is not read.
- DnsRequests.DnsBase.Reply: replies with a search list are not modelled.
- DnsRequests.DnsBase.Transmit: setting the timer of a request always succeeds; the source only logs that it did not.
- Arc4.Uniform: the words drawn are given, so that the loop ends.
- EventRuns.RunOne: the user's callback is not part of the step; what it does are steps of its own.
