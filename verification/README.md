# A verified model of libgwrl

libgwrl is an event reactor with a proactor on top of it. This project models, in Dafny, the parts of it
where state is shared between calls:

* **The proactor's write path** (`WriteSpec`, `CallbackSpec`, `AnswerSpec`, `ReportSpec`, `FlowOrder`, `SyncSpec`,
  `SessionSpec`, `InterestSpec`, `OrderSpec`, `WriteQueue`, `WriteLine`, `WriteRecord`, `WritePath`, `WriteRun`). Each
  source has a linked queue of buffers with a head and a tail pointer. A drain detaches it, pushes every buffer through partial kernel writes, moves an unwritten rest to a fresh node, puts
  back what is left and switches write events off, while the did-write callbacks it makes write more. The
  kernel is an object of its own, which takes any positive number of the bytes offered or fails, as it likes, and
  records what it took. The `...Spec` modules and `FlowOrder` say on values what drains and whole runs do; `WriteQueue`,
  `WriteLine`, `WritePath` and `WriteRun` are the linked nodes on the heap, proved to do exactly that, with `WriteRecord`
  for what a connection has on record on the way.
* **Events** (`Reactor`, `Dispatch`, `CrossThread`, `Shutdown`). Event nodes are created, posted, dispatched in
  batches, cached and freed. A callback posts any finite number of events of its choice.
* **Timers** (`TimeSpec`, `TimerSpec`, `TimerLife`, `TimerGather`, `TimerRun`, `EventLoop`). One walk over the timer list
  fires, re-arms, disables and deletes, and computes how long the backend may sleep.
* **Sources and the poll backend** (`Sources`, `QueuedSources`, `Poll`, `PollRun`). The list of sources, and the packed
  descriptor array with the table from descriptors to sources that must agree with it.

`Seqs` and `Flags` are shared helpers. Classes follow the source's structures and update their fields in
place; each method is tied to a function on values or to a ghost sequence, and the properties below are
proved about those.

`dafny verify dfyconfig.toml` checks the project.

## What holds, and exactly when

Some things the code is meant to do hold only under a condition. Each is stated as an equivalence, or with the
outcome of both cases.

* **A drain conserves the byte stream** (bytes taken, then the queue, are the old queue) exactly when every answer
  of the kernel was success, would-block, or an error reported to errorcb before any byte of its item was taken
  (`DrainConservesIff`). After a hard error in the middle of an item the written prefix is queued again and the rest
  is lost (`HardErrorAfterPartial`). The documentation (docs/pod/doc.pod:1126-1131) promises, for a
  closed socket, a buffer with the remaining data; there as here the buffer handed over holds it, but with length 0.
* **What the user is told** of an item follows from errno (`Told`): didwritecb of what was written, and then closedcb or
  errorcb. With both installed the user is handed every byte of an item that is given up, except when the descriptor
  was closed before any byte of it was taken: closedcb then gets no buffer (`GivenBackIff`).
* **Writes queued by did-write callbacks** during a drain form the new queue, in the order of the calls, exactly when
  there is at most one of them or `wrqlast` was null when the queue was detached (`QueueKeptIff`).
  src/gwrl/proactor_imp.c:354 clears `wrq` and keeps `wrqlast`. So the first write starts the new queue and every
  further one is linked behind the last node of the list being drained: it is written before the first
  (`WrittenOutOfOrder`), or, queued by the callback of that last node, it is lost, because the loop has read `next`
  already (`LinkedTooLate`).
* **Writes made directly by did-write callbacks.** While the queue is detached `wrq` is null, so a callback's first
  writes are tried synchronously (src/gwrl/proactor_imp.c:846-850, with up to 512 bytes by default, CMakeLists.txt:22)
  and get ahead of every item still waiting to be drained (`WrittenAhead`). No byte is lost by that; the order is kept
  exactly when nothing is waiting (`InTurn`, `OrderlyFlow`, `OvertakenBytes`).
* On the heap the drain is proved to do all this turn by turn (`WritePath.Conn.Callback`, `DrainTurn`, `Drain`). It ends
  only because callbacks stop queueing: what they queue may be drained in the same loop.
* **Over a run**, what the kernel took followed by what is pending is what was submitted, in call order, exactly when
  every answer was clean, every synchronous attempt was taken whole, every write queued from outside a drain found
  `wrqlast` usable, and every drain was orderly in the two senses above (`StreamOrderIff`). On the heap these answers are
  those the kernel gave, call by call, and these values of `wrqlast` those the connection found (`RunInOrder`).
* **The tail pointer.** `wrqlast` keeps its value after a full drain and when a new node takes the rest of the last
  item (src/gwrl/proactor_imp.c:237-244, 354). A write from outside a drain is lost exactly when the queue holds one
  node and `wrqlast` points to another (`AsynchronousWrite`, `TailUsableIff`). `TailLeftBehind` is a run that gets there:
  of any two queued datagrams the kernel takes the first whole and the second in part, and a third is lost.
  `Run` follows the code as it is: it agrees with the run on values up to and including the first write that meets that
  condition. A connection keeps a log of what `wrqlast` was at each write queued and at each drain; the log of a run
  ends with the unusable one exactly if that write was made, and has no other. With the pointer recomputed after each
  drain there is no such write.
* **Write events** are on, over any run, exactly while there is something to write and no error has stopped the last
  drain, or a connect has not been answered, or it was answered with no did-write callback to switch them off
  (`InterestIsTold`); all of this is told from the calls and answers of the run.
* **A synchronous write** conserves the stream exactly when the kernel takes everything (`SyncConservesIff`). The
  documentation (docs/pod/doc.pod:1102-1104) has the remaining data queued after a partial write; the buffer that is
  queued has already been cut to the part that was written.
* **Events posted by other threads** arrive in posting order exactly when the event list is not empty or there is
  only one of them; otherwise they form a ring (`InstallQueuedEvents`). Sources added by other threads fare alike
  (`InstallQueuedSources`); file sources get their slots in the poll index either way, but a list that is a ring has
  no end for the next recalculation.
* **The poll index.** Every source added gets a slot, enabled or not. Over any run of calls an enabled source is never
  without a slot (`NeverUnwatched`), and the slots are exactly those of the enabled sources if and only if no source
  was added or updated without GWRL_ENABLED since they were last recalculated (`WatchedExactlyIff`, and on the heap
  `PollRun.Run`). gwpr_src_add adds a source with GWRL_RD and without GWRL_ENABLED (src/gwrl/proactor.c:121), so such
  a source is polled, and its events are dropped by the gather, until it is enabled or the array is recalculated.
  gwrl_src_file_update_flags writes through a pfd that disabling leaves behind; `UpdateFlags` says exactly when the
  index survives that.
* **A timer that does not repeat** fires, over any gathers, exactly if one of them is not before its deadline
  (`OneShotFiresIff`), which for a relative one without a deadline is ms after its first gather
  (`FreshOneShotFiresIff`). An interval timer fires in a gather exactly if as many intervals as it has fired have gone
  by since its first deadline (`IntervalFiresIff`).
* **The sleep bound** is exact in nanoseconds, but poll gets it as a 32-bit int: it never sleeps past the deadline
  exactly when the milliseconds keep their sign in that conversion (`SleepBound`). A deadline 25 days away makes it
  wait for ever (`TwentyFiveDays`).

## Model

| member | source | states |
|---|---|---|
| WriteSpec.DrainConserves | src/gwrl/proactor_imp.c:341-391 | With clean answers, bytes taken followed by what is left are the bytes that were queued, in order |
| WriteSpec.DrainConservesIff | src/gwrl/proactor_imp.c:341-391 | For distinct bytes the drain conserves the stream if and only if every answer was clean |
| WriteSpec.CompletionAccounting | src/gwrl/proactor_imp.c:216-231 | In any drain, whatever the errors, the did-write callbacks report exactly the bytes the kernel took, once and in order |
| WriteSpec.LostStaysLost | src/gwrl/proactor_imp.c:247-283 | A drain with an unclean answer leaves some queued byte neither taken nor pending |
| WriteSpec.HardErrorAfterPartial | src/gwrl/proactor_imp.c:273-286 | A hard error after a partial write queues the written prefix, ends the drain, and hands errorcb the rest with length 0 |
| WriteSpec.HardErrorLosesByte | src/gwrl/proactor_imp.c:273-286 | A concrete drain in which one byte is doubled and one lost |
| ReportSpec.StepReports | src/gwrl/proactor_imp.c:205-289 | Errno by errno, what one answer adds to the calls of the three callbacks, and whether the item is dropped, kept or copied and the drain ended or stopped |
| ReportSpec.RunReports | src/gwrl/proactor_imp.c:362-383 | In any legal drain the i-th answer is about the i-th item and tells the user of it exactly that |
| ReportSpec.DrainReports | src/gwrl/proactor_imp.c:362-383 | All calls of a drain, in order, are those its answers call for: one closedcb for each closed descriptor if it is set, with data[written..] or no buffer; errorcb with errno and the rest or the whole item; none for other answers |
| ReportSpec.EndsAtLast | src/gwrl/proactor_imp.c:273-286 | Only the last answer of a drain can be a full socket or an error that errorcb is told of |
| ReportSpec.FlowReports | src/gwrl/proactor_imp.c:362-383 | The same with callbacks that write, for the items of the drain and those that strayed into it |
| ReportSpec.EventReports | src/gwrl/proactor_imp.c:362-383 | Over any run of writes, connects and drains, each event adds to the calls what the answers in it call for, and only a drain adds any |
| ReportSpec.GivenBackIff | src/gwrl/proactor_imp.c:257-286 | With both callbacks the user is handed every byte of an item given up if and only if it is not the case that the descriptor was closed before any was taken |
| ReportSpec.HangupHandsRest | src/gwrl/proactor_imp.c:257-272 | A concrete drain in which closedcb is handed the byte that was not written |
| CallbackSpec.WhereTheyGo | src/gwrl/proactor_imp.c:969-983 | Of the writes callbacks queue in a drain: with wrqlast null all form the new queue; with it set the first does, and each other one is drained with the old items or, in the last turn, lost |
| CallbackSpec.QueueKeptIff | src/gwrl/proactor_imp.c:341-383 | Callback writes form the new queue in call order, none drained and none lost, if and only if at most one was made or wrqlast was null at the detach |
| CallbackSpec.FlowIsDrain | src/gwrl/proactor_imp.c:362-383 | Callbacks, rest and, direct writes apart, bytes of a drain with callbacks are those of a plain drain of the old items followed by the strays |
| CallbackSpec.WrittenOutOfOrder | src/gwrl/proactor_imp.c:362-383 | Two items, all answers clean, two writes queued by the first callback: the second is taken by the kernel and the first still pending |
| CallbackSpec.LinkedTooLate | src/gwrl/proactor_imp.c:364-382 | The callback of the last item queues two writes: the second is on no list |
| CallbackSpec.WrittenAhead | src/gwrl/proactor_imp.c:838-850 | Two items, all answers clean, one direct write by the first callback: the kernel takes it before the second item |
| CallbackSpec.DirectFirst | src/gwrl/proactor_imp.c:846-850 | Over any drain, what callbacks wrote is what they wrote directly followed by what they queued |
| FlowOrder.OrderlyFlow | src/gwrl/proactor_imp.c:341-391 | Clean answers, callbacks in turn, at most one queued or wrqlast null: bytes taken and left are the old ones followed by the direct ones |
| FlowOrder.OvertakenBytes | src/gwrl/proactor_imp.c:838-850 | When a callback writes directly while a byte is waiting, the kernel takes the new byte first and the waiting one later or never |
| FlowOrder.SentCounts | src/gwrl/proactor_imp.c:499-541 | The kernel takes each byte of the drain and each byte written directly, once |
| SyncSpec.SyncAccounting | src/gwrl/proactor_imp.c:544-672 | The completion event of a synchronous write reports exactly the bytes taken, for every outcome |
| SyncSpec.SyncConservesIff | src/gwrl/proactor_imp.c:579-617 | Bytes taken and items queued make up the buffer if and only if the kernel took all of it |
| SyncSpec.SyncPartialBlocked | src/gwrl/proactor_imp.c:608-670 | A partial write that would block re-queues the written part and also posts an error event |
| SyncSpec.SyncPosts | src/gwrl/proactor_imp.c:623-670 | Which events are posted for each errno, with which buffer |
| SyncSpec.SyncQueues | src/gwrl/proactor_imp.c:608-648 | The buffer is queued only for a full socket, cut to what was written, and twice if that is nothing |
| WriteQueue.Proactor.Get | src/gwrl/proactor_imp.c:896-915 | A node comes from the top of the cache, or is new; the cache count stays its length |
| WriteQueue.Proactor.Free | src/gwrl/proactor_imp.c:918-928 | A node goes on top of the cache, its buffer forgotten, unless the cache is full; the count never exceeds the limit; the node is on record as given back |
| WriteQueue.Queue.Add | src/gwrl/proactor_imp.c:969-983 | For any tail pointer: appends exactly when it is usable, and otherwise leaves the list said by Misplaced |
| WriteQueue.MisplacedLosesNodes | src/gwrl/proactor_imp.c:969-983 | Whenever the tail is not usable the list does not grow: the node ends it behind the head or the node pointed to, or the list is as it was |
| WriteQueue.Queue.Putback | src/gwrl/proactor_imp.c:943-966 | The whole chain goes in front; onto a non-empty queue the tail pointer becomes exact, onto an empty one it is untouched |
| WriteQueue.LastOf | src/gwrl/proactor_imp.c:951-961 | The walk to the end of a chain finds its last node |
| WriteLine.WriteBuffer | src/gwrl/proactor_imp.c:499-541 | Whatever the kernel answers, its record shows that it took exactly the first `written` bytes, in calls that each offered all that was left, and that it stopped early only on an error |
| WritePath.Conn.QueueNear | src/gwrl/proactor_imp.c:732-766 | A write queued while a list is being drained: it joins the queue, or the list being drained when the tail pointer is that list's last node |
| WritePath.Conn.Callback | src/gwrl/proactor_imp.c:216-231 | A did-write callback asks for any number of writes in the middle of a drain, and gets them in order, with operation, peer and data as asked, as long as it may queue more; each goes straight to the kernel, to the queue, or to the list being drained, as the values say |
| WritePath.Conn.AcceptWhole | src/gwrl/proactor_imp.c:558-577 | A synchronous write taken whole, in one kernel call or several, from a callback or not: kernel and completion have it, and no list changes |
| WritePath.Conn.WriteItemResult | src/gwrl/proactor_imp.c:205-289 | On the heap: the callbacks, and the queue put back, of one step, for any writes made by its did-write callback, with node, rest and cache kept apart |
| WritePath.Conn.DrainTurn | src/gwrl/proactor_imp.c:362-383 | One turn of the loop does to bytes, callbacks, flags, lists and lost items what StepFlow does to their values, with the answers recorded by the kernel; its node is given back to the cache exactly if the loop goes on |
| WritePath.Conn.DrainLoop | src/gwrl/proactor_imp.c:362-383 | The loop ends where the drain on values is finished, its turns answered as the kernel recorded |
| WritePath.Conn.Drain | src/gwrl/proactor_imp.c:341-391 | The whole write event: queue, bytes, callbacks, lost items and flags are those of the drain on values begun with this tail pointer, its answers those of the calls made to the kernel; when the tail pointer is left unusable; one node is given back for each turn but one that ends the drain early; and the tail pointer at the detach is logged |
| WritePath.Conn.TailUsableIff | src/gwrl/proactor_imp.c:969-983 | The test a caller could make before queueing is equivalent to the tail pointer being usable |
| WritePath.Conn.AsynchronousWrite | src/gwrl/proactor_imp.c:732-766 | The item joins the queue exactly when the tail pointer is usable; otherwise the queue is unchanged and the item is on no list; which of the two is logged; write events are on |
| WritePath.Conn.SynchronousWriteAccepted | src/gwrl/proactor_imp.c:558-577 | A synchronous write taken whole adds its bytes to those the kernel took, records its completion and queues nothing |
| WritePath.Conn.Write | src/gwrl/proactor_imp.c:838-893 | A write call: direct only on an empty queue, else queued; both outcomes and the lost case |
| AnswerSpec.PartTakenEnds | src/gwrl/proactor_imp.c:362-383 | Three kernel calls determine a drain of two items whose callbacks queue nothing: one item taken whole, the other in part, then no more; what is left is the rest of that one, on a new node |
| OrderSpec.UnlinkedLoses | src/gwrl/proactor_imp.c:969-983 | A write queued with an unusable tail pointer has a byte that is neither taken nor pending afterwards |
| WriteRun.StrandedLast | src/gwrl/proactor_imp.c:969-983 | In any run on values an unusable tail pointer is met by the last write or by none |
| SessionSpec.StreamOrder | src/gwrl/proactor_imp.c:838-854 | Over any run with clean answers, a usable tail pointer for every outside write and orderly drains, bytes taken and bytes pending are the bytes submitted, in call order, callback writes included |
| OrderSpec.StreamOrderIff | src/gwrl/proactor_imp.c:838-854 | For distinct bytes that holds if and only if every answer was clean, every synchronous attempt taken whole, every outside write that was queued found wrqlast usable, and every drain orderly: at most one write queued by callbacks or wrqlast null, and no direct write while bytes were waiting |
| OrderSpec.UncleanRunLoses | src/gwrl/proactor_imp.c:273-286 | A byte lost by a drain, left by a synchronous attempt, or of a write queued with an unusable tail pointer, is still missing at the end of the run |
| OrderSpec.DisorderlyRun | src/gwrl/proactor_imp.c:969-983 | After a disorderly drain some byte is behind one submitted after it, or is gone, and no later call mends it |
| SessionSpec.InterestMirrorsQueue | src/gwrl/proactor_imp.c:385-390 | In every reachable state write events are on if and only if something unparked is queued, a connect is unanswered, or one was answered without a did-write callback |
| InterestSpec.InterestIsTold | src/gwrl/proactor_imp.c:385-390 | Over any run, write events are on if and only if something is queued and the last drain was not stopped by an error since which nothing was queued or connected, or a connect is unanswered, or one was answered idly; all told from the events |
| InterestSpec.OnAfterConnect | src/gwrl/proactor_imp.c:783-797 | After a connect write events stay on until a writable event |
| WriteRun.Run | src/gwrl/proactor_imp.c:292-391 | Any interleaving of writes and writable events on the heap does what the session does, event by event, with the answers the kernel gave and the tail pointers the connection found; it ends with the first write made while the tail pointer is unusable, whose item is on no list, or after all actions; with the tail repaired there is no such write |
| WriteRun.DrainReported | src/gwrl/proactor_imp.c:205-289 | On the heap, a drain adds to the calls exactly what its answers call for |
| WriteRun.RunInOrder | src/gwrl/proactor_imp.c:838-854 | Of such a run: the log of tail pointers has an unusable one exactly if the last write was lost, and only there; the kernel calls are those of its events, in order; the stream order holds exactly when answers are clean, no write was lost and drains orderly; write events are on exactly while something is queued and no error has stopped the drain, told from the events |
| WriteRun.TailLeftBehind | src/gwrl/proactor_imp.c:237-244 | For any three datagrams: if the kernel calls show the first of two queued ones taken whole and the second in part, the third is lost, and what is queued is the rest of the second |
| Reactor.EventQueue.Create | src/gwrl/event.c:62-92 | The node comes from the top of the cache or is new; cache and count agree |
| Reactor.EventQueue.Free | src/gwrl/event.c:440-452 | The node is released once, and cached unless the cache is full |
| Reactor.EventQueue.FreeList | src/gwrl/event.c:455-463 | Every node of a list is released once, in order, and the cache is the one RecycledIs describes |
| Reactor.RecycledIs | src/gwrl/event.c:440-463 | Freeing n nodes with k cached leaves min(max, k + n) cached: the first ones freed, the last on top |
| Reactor.EventQueue.Post | src/gwrl/event.c:590-594 | A post goes to the front of the pending events |
| Reactor.EventQueue.PostNew | src/gwrl/event.c:62-104 | Creating and posting: one more event in front, on a node that was cached or is new |
| Dispatch.Loop.Dispatch | src/gwrl/event.c:727-744 | Ends whatever callbacks post; the rounds are the callbacks made, with the events each posted, in list order; the nodes of each round are the list detached for it, and each is released once; what is left are the posts of the last batch; the cache is the one these posts and batches leave |
| Dispatch.DispatchConserves | src/gwrl/event.c:727-744 | Events at the start plus all posts are the events of the batches plus those left: none lost, none run twice |
| Dispatch.PostedKeeps | src/gwrl/event.c:590-594 | The event list after a batch holds exactly the posts of its callbacks |
| Dispatch.CacheFills | src/gwrl/event.c:440-465 | After a batch the cache holds what its callbacks left of it and, as far as there is room, the nodes of the batch, last one on top |
| Dispatch.Loop.Callback | src/gwrl/event.c:733 | A callback posts any finite number of events; they stand in front of the list, newest first, and are on record |
| Dispatch.Loop.RunEvent | src/gwrl/event.c:733-734 | One event: its callback runs if it has one, its posts join the list, and the batch's nodes stay out of list and cache |
| Dispatch.Loop.Redispatch | src/gwrl/event.c:735-741 | The end of a batch: its nodes are released and the posts become the next batch |
| Sources.SourceList.Add | src/gwrl/event.c:477-484 | A source goes to the front of its list |
| Sources.SourceList.Delete | src/gwrl/event.c:517-541 | Deleting past the predecessor, at the head or by search gives the same list, without the source, whose next is null |
| Sources.SourceList.Search | src/gwrl/event.c:529-537 | The search unlinks the source if it is there and changes nothing if it is not |
| Sources.WithoutAt | src/gwrl/event.c:517-541 | Removing the k-th of distinct nodes leaves those before and those after it |
| Sources.WithoutAbsent | src/gwrl/event.c:529-537 | Removing an absent node leaves the list as it is |
| Sources.ChainWithout | src/gwrl/event.c:521-537 | Bypassing one node of a chain gives the chain without it |
| TimeSpec.MsToTimespec | src/gwrl/time.c:23-30 | Computes FromMs; its branch is accounted for |
| TimeSpec.TimespecToMs | src/gwrl/time.c:41-48 | Computes ToMs, with C's truncation |
| TimeSpec.MsRoundTrip | src/gwrl/time.c:23-48 | Milliseconds to timespec and back is the identity, for any sign; when the result is normal |
| TimeSpec.AddMsToTimespec | src/gwrl/time.c:60-68 | The carry loop ends and computes AddMs for any arguments |
| TimeSpec.AddMsIsExact | src/gwrl/time.c:60-68 | Addition is exact in nanoseconds, and when the result is normal |
| TimeSpec.SubInto | src/gwrl/time.c:88-95 | The borrow loop ends and computes Sub for any arguments |
| TimeSpec.SubIsExact | src/gwrl/time.c:88-95 | Subtraction is exact in nanoseconds, and when the result is normal |
| TimeSpec.CompareIsOrder | src/gwrl/time.c:70-77 | Comparison of normal times is the order of their nanoseconds |
| TimeSpec.CopyIfSmaller | src/gwrl/time.c:79-86 | Of two normal times the lesser in nanoseconds is kept, and it was copied if and only if the source was the lesser |
| TimeSpec.ExpiredIffDue | src/gwrl/time.c:97-101 | when - now is expired if and only if when is not after now |
| TimeSpec.NormalIsNotNever | src/gwrl/event_private.h:76-77 | No normal time collides with the sentinel |
| TimeSpec.PollTimeout | src/gwrl/event_poll.c:176-193 | The int given to poll, with its conversion |
| TimeSpec.SleepBound | src/gwrl/event_poll.c:181-193 | Exactly when poll does not sleep past a deadline, and exactly when it wakes less than a millisecond early |
| TimeSpec.TwentyFiveDays | src/gwrl/event_poll.c:181-193 | A deadline for which poll is told to wait for ever |
| TimerSpec.FiresIffDue | src/gwrl/event.c:636-650 | A timer fires if and only if it is enabled and its deadline is not after now |
| TimerSpec.SleepIsExact | src/gwrl/event.c:644-695 | The timeout is zero iff an event was posted, the sentinel iff no timer is enabled, and otherwise the least positive time to a deadline |
| TimerSpec.TimeoutIsBound | src/gwrl/event.c:679-685 | The minimum kept by the walk is the least time left of the enabled timers |
| TimerSpec.FirstGatherArms | src/gwrl/event.c:640-644 | A new relative timer gets its deadline, ms ahead, in the first gather, and fires then only if ms is 0 |
| TimerSpec.IntervalDoesNotDrift | src/gwrl/event.c:654-657 | After n firings the deadline is n intervals after the first, however late the gathers were |
| TimerSpec.FiringsAreBounded | src/gwrl/event.c:648-657 | n firings by now means n - 1 intervals fit between the first deadline and now |
| TimerSpec.FiresAtMostOnce | src/gwrl/event.c:663-676 | A timer that does not repeat fires at most once in any run; then it is gone, or disabled with the sentinel |
| TimerLife.DisabledStays | src/gwrl/event.c:629 | A disabled timer of any kind stays as it is over any gathers and never fires |
| TimerLife.OneShotFiresIff | src/gwrl/event.c:629-683 | An enabled timer that does not repeat and has a deadline, absolute or relative, fires over any gathers if and only if one is not before it, and until then stays as it is |
| TimerLife.FirstGatherDecides | src/gwrl/event.c:633-637 | A relative timer without a deadline fares as one whose deadline is ms after its first gather |
| TimerLife.FreshOneShotFiresIff | src/gwrl/event.c:629-683 | Such a one-shot fires if and only if some gather is ms after the first one or later; until then only its deadline has been set |
| TimerLife.OneShotOfASecond | src/gwrl/event.c:629-683 | A one-shot of one second looked at after 0 and 1.5 seconds fires at the second gather and is gone |
| TimerLife.IntervalFiresIff | src/gwrl/event.c:651-660 | An interval timer fires in a gather if and only if as many intervals as it has fired have gone by since its first deadline |
| TimerLife.FreshIntervalFiresIff | src/gwrl/event.c:633-660 | The same counted from the first gather when there was no deadline |
| TimerSpec.RegistrationOrder | src/gwrl/event.c:477-484 | Prepending on registration and on posting cancel: fired timers and survivors are in the order of registration |
| TimerSpec.WalkIs | src/gwrl/event.c:631-689 | The walk that deletes as it goes computes the survivors, the fired timers and the timeout of the list it started with |
| TimerGather.Clock.Tick | src/gwrl/event.c:638-686 | One enabled timer: event, new state, timeout and whether it has to go |
| TimerGather.ExpiriesCarry | src/gwrl/event.c:647 | The event of an expired timer carries its source, callback and userdata, and neither descriptor nor flags |
| TimerGather.Clock.Drop | src/gwrl/event.c:670-675 | The unlinking, with or without a known predecessor, removes just that node |
| TimerGather.Clock.GatherLoop | src/gwrl/event.c:631-689 | The loop over the list on the heap is the walk on values |
| TimerGather.Clock.Gather | src/gwrl/event.c:622-696 | The new list, the timers' states, the events and the timeout, for any list of timers |
| TimerRun.GatherLive | src/gwrl/event.c:622-696 | Over any run of gathers, a gather of the timers left gives what each timer comes to by itself, in the same order |
| TimerRun.GatherRun | src/gwrl/event.c:770-790 | Any run of gathers on the heap: the timers left are those of Live, each has posted as many events as Firings says, and the timeout is that of the timers before the last gather |
| EventLoop.Register | src/gwrl/event.c:477-484 | The timer list stays the reverse of the order of registration |
| EventLoop.Enable | src/gwrl/event.c:597-608 | Enabling sets the flag and the new deadline of that timer and touches no other |
| EventLoop.Disable | src/gwrl/event.c:611-614 | Disabling clears the flag of that timer and touches no other |
| EventLoop.EnabledTimerFires | src/gwrl/event.c:597-608 | A relative timer enabled at one time fires at another if and only if ms have gone by |
| EventLoop.EnabledOneShotFires | src/gwrl/event.c:597-604 | Over any gathers after it is enabled, a timer that does not repeat fires if and only if one is not before its own deadline, if absolute, or ms after the enabling |
| EventLoop.DisabledAgain | src/gwrl/event.c:597-611 | Disabling undoes enabling but for the deadline, and the timer then never fires |
| EventLoop.GatherInOrder | src/gwrl/event.c:622-696 | The events of a gather stand at the front of the list in the order of registration |
| EventLoop.GatherAndDispatch | src/gwrl/event.c:727-744 | Timers due together are called in the order of registration, before anything their callbacks post; each is called with its own callback, userdata and source |
| EventLoop.ExpiredFirst | src/gwrl/event.c:725-744 | In a dispatch of the events of expired timers the first calls are of the timers that have a callback, in order, each with its own callback, userdata and source |
| EventLoop.GatherReady | src/gwrl/event_poll.c:218-260 | The events of the slots gone through, all of them up to a broken one, stand in front of those pending, last slot first; nothing is gone through unless poll reports something |
| CrossThread.Mailbox.PostSafely | src/gwrl/event.c:502-514 | A queued event goes to the front of the mailbox, which stays null-terminated |
| CrossThread.InstallQueuedEvents | src/gwrl/event.c:713-724 | Posting order in front of the old list, exactly when the list is not empty or at most one is queued; otherwise no list at all |
| CrossThread.MovedIsChain | src/gwrl/event.c:719-723 | Nodes moved one by one onto a list form the list in posting order followed by the old one |
| CrossThread.MovedIsRing | src/gwrl/event.c:719-723 | Two or more moved onto an empty list form no list that ends |
| CrossThread.Follow | src/gwrl/event.c:719-723 | Where a walk through such a ring is after k steps |
| QueuedSources.SourceBox.AddSafely | src/gwrl/event.c:487-499 | A queued source goes to the front of the box, which stays null-terminated |
| QueuedSources.InstallQueuedSources | src/gwrl/event.c:699-710 | Queued sources go in front of the list in the order they were queued, and file sources into the poll index, exactly if the list is not empty or at most one is queued; otherwise no null-terminated list starts at the head |
| QueuedSources.MovedSourcesAreChain | src/gwrl/event.c:705-709 | Sources moved one by one onto a list form the list in queueing order followed by the old one |
| QueuedSources.SourcesAreRing | src/gwrl/event.c:705-709 | Two or more moved onto an empty list form no list that ends |
| QueuedSources.WatchedIsValid | src/gwrl/event_poll.c:121-164 | Slots and table entries given one by one are, once the list is linked, the whole index |
| Shutdown.Teardown.FreeEvents | src/gwrl/event.c:342-361 | The pending events and then the cached ones are freed, each once |
| Shutdown.Teardown.FreeQueuedEvents | src/gwrl/event.c:412-424 | The queued events are freed, each once |
| Shutdown.Teardown.Deliver | src/gwrl/event.c:369-384 | A source is appended to the caller's list, or freed |
| Shutdown.Teardown.DeliverAll | src/gwrl/event.c:365-409 | All sources of one list are dealt with, once and in order |
| Shutdown.Teardown.FreeAll | src/gwrl/event.c:342-429 | Every event is freed exactly once; every source is on the caller's null-terminated list once, in order, or freed exactly once |
| Poll.PollIndex.RecalcSrcs | src/gwrl/event_poll.c:76-97 | The slots become those of the enabled sources in list order, each with its own descriptor and mask, the others zero |
| Poll.PollIndex.Watch | src/gwrl/event_poll.c:121-164 | The next free slot and a table entry for a source, whatever the list |
| Poll.PollIndex.Add | src/gwrl/event_poll.c:121-164 | Keeps the index; the slots stay exact if and only if they were and the new source is enabled |
| Poll.PollIndex.Delete | src/gwrl/event_poll.c:99-107 | List, slots and table are those without the source |
| Poll.PollIndex.Enable | src/gwrl/event_poll.c:109-113 | Keeps the index and makes the slots exact |
| Poll.PollIndex.Disable | src/gwrl/event_poll.c:115-119 | Keeps the index, makes the slots exact, and leaves the source without a slot of its own |
| Poll.PollIndex.UpdateFlags | src/gwrl/event_poll.c:68-74 | The mask is written where pfd points; the index survives if and only if the source owns that slot, or nothing is changed by it; the mask asks for input if and only if the flags given say RD, and output if and only if WR |
| Poll.PollIndex.MaskedSlots | src/gwrl/event_poll.c:68-74 | The slots are right after an overwritten mask if and only if it was the owner's or the same mask |
| Poll.PollIndex.PolledExactly | src/gwrl/event_poll.c:76-97 | The slots are exact if and only if they hold each enabled listed source once and nothing else |
| Poll.PollIndex.WatchedRightly | src/gwrl/event_poll.c:91-92 | Every slot is watched for input if and only if its source reads, for output if and only if it writes, and for nothing else; every enabled listed source has such a slot |
| Poll.NewsReport | src/gwrl/event_poll.c:222-253 | Each source of the slots gone through has one event if it is enabled and poll returned any bits for it, and none otherwise, in slot order; input or any trouble makes it readable, room for output writable, with its own callback, userdata and descriptor |
| Poll.PollIndex.RecalculatedIsValid | src/gwrl/event_poll.c:76-97 | What the walk over the list establishes is the whole invariant |
| Poll.PollIndex.Look | src/gwrl/event_poll.c:222-253 | The flags of one slot's event; a descriptor that is not open disables its source and clears all slots' bits |
| Poll.PollIndex.Gather | src/gwrl/event_poll.c:218-257 | Events for exactly the ready enabled sources in slot order, up to the first whose descriptor is not open, which is disabled; every one of these sources is told of its bits as NewsReport says |
| PollRun.Do | src/gwrl/event.c:477-484 | Each legal call does to list, slots and all flags what After does to their values, and touches no other source |
| PollRun.CallKeeps | src/gwrl/event_poll.c:68-164 | Every legal call keeps every enabled listed source in a slot; after which calls all slots are of enabled sources |
| PollRun.NeverUnwatched | src/gwrl/event_poll.c:68-164 | Over any run of legal calls no enabled listed source is without a slot, and no slot is of an unlisted one |
| PollRun.WatchedExactlyIff | src/gwrl/event_poll.c:68-164 | Over any run the slots are exactly the enabled sources if and only if none was added or updated without GWRL_ENABLED since the last recalculation |
| PollRun.CallsSay | src/gwrl/event.c:477-611 | Over any run of legal calls, told from the calls: a source is enabled if and only if the last Enabling, Disabling or Updating of it says so, listed if and only if the last Adding or Deleting of it was an Adding, or was so at the start if there is none; other flags change only by Updating |
| PollRun.Run | src/gwrl/event_poll.c:68-164 | After any legal calls list, slots and flags are those of the run of these calls on values, and the slots are exactly the enabled listed sources if and only if the calls left none watched for nothing; each source is enabled, listed and flagged as the calls alone say |

## Left out

- WritePath.Conn.Write: does not model a synchronous attempt that the kernel takes in part or not at all; SessionSpec has it on values, with what is queued then. One that takes nothing and would block has its buffer queued twice, so that two nodes share it.
- WritePath.Conn.SynchronousWriteAccepted: the completion is put on record in `posted`; the event node that carries it, and its return to the cache after the callback, are not modelled.
- WritePath.Conn.AcceptWhole: the completion is put on record in `posted`; no event node is posted to the reactor for it.
- WritePath.Conn.Callback: a callback's direct write is taken whole; one taken in part or not at all, from within a callback, is not modelled, here or in CallbackSpec.
- WritePath.Conn.Drain: callbacks of one drain queue up to any given number of items in all; with a tail pointer that points to a node on neither list they queue one at most, since linking more behind that node changes memory the model does not follow.
- Callbacks that delete sources or re-enter dispatch, and writes made by errorcb or closedcb.
- WriteRun.Run: stops at the first lost write from outside a drain. The node it was linked to may be in the shared cache, whose list the next call then takes from. A run on values ends there too.
- The heap run starts with a did-write callback installed and has no connect; SessionSpec has both.
- SyncSpec is on values only: it says what is queued and posted, not how the nodes are linked. Filters are not modelled; whether a write is short enough to be tried synchronously is left open.
- One clock reading: the source reads the clock for every timer of a gather; the model reads it once.
- Integer widths: counters and times are unbounded, except the int argument of poll; 16-bit cache counters do not wrap.
- The kernel: it takes 1 to n bytes or fails; a retry after EINTR is part of the call; zero-length successes do not occur.
- Buffers: each queued node has a buffer of its own; sizes, tags, filters and the buffer allocator are not modelled.
- The read path, accept, connect's system call and the proactor's options.
- gwrl_del_persistent_timeouts, whose loop does not compute the filter it is named for; deletion is proved on gwrl_src_del.
- gwrl_run itself, gather functions, wake-ups and sleeping: `EventLoop` and `TimerRun` put together only parts of a turn. Between the gathers of `TimerRun` nothing is dispatched.
- QueuedSources.InstallQueuedSources: covers sources of one type, so that one box and one list are involved; file sources have descriptors that are not watched yet, and there is room for them.
- Thread interleavings: a push and the taking of a whole list are single steps; no liveness is claimed.
- Shutdown.Teardown.FreeAll: starts after the last dispatch and ends before locks, backend and pipe are released.
- Poll.PollIndex.Add: does not model growing the array by realloc, nor the size of the table; there is room for every source. Negative descriptors are excluded by the type.
- Poll.PollIndex.Gather: hands its events to `PostAll` after the loop instead of posting each inside it; nothing looks at the event list in between.
- Poll.PollIndex.UpdateFlags: a source that never had a slot has no pfd to write through; it is required to be listed.
- PollRun.Run: flags are updated only of sources that own a slot; what an update through a stale pfd does is said by Poll.PollIndex.UpdateFlags.
- The other backends, sockets, locks, time of day and the wake pipe.
- Allocation failures and their retry loops, coverage-only code, and cache limits changed while running.
- A source's callback, userdata, ms and descriptor do not change; an event's fields are one record.
- The lists of struct gwrl are objects of their own (EventQueue, SourceList, Mailbox, SourceBox, Clock, PollIndex, Teardown), one source list for each type.
