# Event handlers, directory walks and loaders of the Dart runtime, verified

This project models the parts of the Dart runtime's `runtime/bin` directory whose correctness rests on several pieces of
state agreeing with each other, and proves that they do. `dafny verify dfyconfig.toml` checks all of it.

**The dart:io event loop.** A descriptor hands operating system events to isolate ports and keeps a credit of tokens for
each port. Readiness is recorded three times: in a flag, in a ring of active readers and in the kernel's interest set.
`CircularLists`, `Descriptors` and `DescriptorTables` are the objects in memory; `DescriptorSpec` is what they stand for.
`EpollSpec` is the Linux loop as a state machine over messages, event batches, timer expiries and refused registrations;
`EpollProofs` and `EpollTimers` prove what holds in every run of it, and `EpollHandler` proves that the loop over objects
is a run of that machine. `DescriptorEffects` tells the operations of a descriptor through its ports, what each waits
for and its tokens; with that `EpollEffects` says what the loop tells the ports about a batch of reports,
`EpollCommands` what its messages do to ports and kernel, and `EpollFaults` exactly which of them fail an assertion.
`PriorityQueues` holds the timer queue in its array; `HeapSpec` says when it keeps its order and `HeapFronts` why that
is exactly what matters.
`Kqueue` and `KqueueHandlers` treat one descriptor's registration and the sleeping time on macOS, `KqueueLoop`,
`KqueueProofs`, `KqueueEffects`, `KqueueCommands` and `KqueueFaults` every run of the whole loop there; `FuchsiaHandles`
does the same for the edge-triggered notifications that Fuchsia simulates between two threads, `Shutdown` for the
handshake that stops the loop.

**Directory listing and deletion.** A listing is a stack machine that can pause at any entry, shares one path buffer among
its frames and detects cycles of symbolic links with a chain whose nodes the frames share. `FileSystems` and `ListingSpec`
give the preorder walk and the machine and `ListingProofs` connects them. `ListingKinds` says what an entry is by its
inode alone, and `ListingWalk` and `ListingFailures` which entries and which errors are therefore listed. `PathBuffers`,
`DirectoryListings` and `AsyncListings` are the objects, with the deletion of every chain node accounted for, and
`ListingRoom` shows that paths which fit at the start fit throughout. `Disks` resolves paths, with links, dots and
trailing separators; `Purges` says in which order a directory's contents go and how long the path to them lasts;
`DeletionSpec` and `RecursiveDelete` treat recursive deletion on a disk whose calls may fail at any point, and
`DeletionExamples` holds the disks on which it surprises.

**Loaders.** `Words` and `ElfLoader` are the page arithmetic of ELF segments over 64-bit words and the image that results;
`KernelLists` reads kernel list files into one merged buffer.

Seven behaviours differ from what the code's comments or callers suggest; the model keeps the code as it is.

- Removing an entry from the priority queue sifts its replacement down only. A cancelled timer can therefore leave a later
  deadline in front of an earlier one. `EpollTimers.HeapThroughoutIffRunFits` states for which runs the order is kept,
  `HeapFronts.FrontStaysMinimumIff` that nothing less keeps the earliest deadline in front, and
  `EpollTimers.CancelCanMissADeadline` and `Kqueue.CancelCanOversleep` give an instance on each loop.
- Deleting a path that ends in a separator or a dot after a link to a directory empties the directory and then fails,
  although links are otherwise removed and never followed. `RecursiveDelete.OutcomesStayWithinIff` states exactly when a
  deletion stays within what its path is about, and `DeletionExamples.LinkSlashEmptiesTheTarget` gives an instance.
- Deleting a directory by a path that passes through its own contents stops half way and fails without any call failing
  on its own, because missing entries count as deleted. `RecursiveDelete.DeletionSucceedsIff` states exactly when a
  deletion succeeds and `DeletionExamples.DetourStopsHalfWay` gives an instance.
- Adding a name that ends exactly at the length limit of the path buffer reports success and loses a character.
  `PathBuffers.PathBuffer.Add` states exactly when the buffer shows what was added, and
  `RecursiveDelete.DeleteFile` and `RecursiveDelete.LimitPathDeletesAnother` what that does to a deletion.
- On macOS an end of file on a listening socket is reported as a close, which the descriptor asserts never to happen.
  `KqueueProofs.EveryRunIsSafe` states that this is the only assertion that can fail, and exactly when it does.
- Reading a kernel list deletes the kernels read so far when a listed file is not a kernel, but not when it cannot be
  read at all. `KernelLists.TryReadKernelListBuffer` states both cases.
- The shutdown handshake waits without a loop. `Shutdown.SafeIffNoSpuriousWakeUps` states when that is safe.

## Model

| member | source | states |
|---|---|---|
| `EpollProofs.EveryRunIsSafe` | runtime/bin/eventhandler_linux.cc:188-275 | over every legal run of the Linux loop, whatever the mix of messages, event batches and refused registrations: every descriptor named by an event is live, every notification goes to a legal port, no assertion of the loop fails, registered means live with exactly the events of a current non-empty mask, and the credits balance |
| `EpollProofs.RoundKeepsInv` | runtime/bin/eventhandler_linux.cc:343-379 | one batch of events followed by its interrupt messages keeps all of that; messages come after the batch, so no event of the batch meets a closed descriptor |
| `EpollProofs.StartIsSafe` | runtime/bin/eventhandler_linux.cc:73-112 | the loop starts in such a state |
| `EpollProofs.InterestSetMirrorsMasks` | runtime/bin/eventhandler_linux.cc:128-140 | in a run without a refused registration a descriptor is registered if and only if its mask is not empty, and with exactly the events of that mask |
| `EpollProofs.ReportsAreWanted` | runtime/bin/eventhandler_linux.cc:321-341 | what an event reports to a port, apart from close and error, is in the mask the descriptor had |
| `EpollProofs.UpdateEpollRestores` | runtime/bin/eventhandler_linux.cc:128-140 | after any change of a descriptor the registration step restores the match between interest set and mask, or withdraws the descriptor when the kernel refuses it; it never adds a registered descriptor |
| `EpollProofs.NotifyBalance` | runtime/bin/eventhandler.h:510-530 | a notification takes one token from exactly the port it is posted to, so initial amount minus posted plus returned stays the port's balance |
| `EpollProofs.ReturnBalance` | runtime/bin/eventhandler.h:268-272 | a port that returns no more than it received never exceeds the initial amount, and the balance stays exact |
| `EpollProofs.BroadcastKeepsDescriptor` | runtime/bin/eventhandler.h:532-550 | a broadcast takes one token from every attached port and keeps the balance; only broadcasts take a shared descriptor's counter below zero |
| `EpollProofs.ReadyKeepsInv` | runtime/bin/eventhandler_linux.cc:358-371 | handling one reported descriptor keeps the invariant and touches no other descriptor |
| `EpollEffects.ReadyEffect` | runtime/bin/eventhandler_linux.cc:321-341 | a report on a descriptor with a mask is posted exactly once: an error on a readable descriptor to all its ports, any other in, out or hang-up to the port in turn with just the report's own bits; each port told pays one token and nobody else, and any other report changes nothing |
| `EpollEffects.BatchIsAnswered` | runtime/bin/eventhandler_linux.cc:343-379 | the notifications of a batch are, in order, one for each of its reports that counts, told to the ports the batch found |
| `EpollFaults.ReportBreaksIff` | runtime/bin/eventhandler_linux.cc:358-371 | a report fails no assertion if and only if its object is alive, has a port to tell, and, when it is a listening socket, hears of new connections only |
| `EpollProofs.CloseSingleKeepsInv` | runtime/bin/eventhandler_linux.cc:216-256 | closing a connected socket takes exactly its number out of the map and its descriptor out of the table, leaves it unregistered and posts one destroyed event |
| `EpollProofs.CloseListeningKeepsInv` | runtime/bin/eventhandler_linux.cc:232-248 | closing a shared listening socket removes one port; the descriptor is deleted, unmapped and unregistered exactly when the registry says that was the last listener, and otherwise stays with the other ports |
| `EpollProofs.ReturnKeepsInv` | runtime/bin/eventhandler_linux.cc:257-261 | a returned token may bring a descriptor back into the interest set; the invariant holds again afterwards |
| `EpollProofs.SetMaskKeepsInv` | runtime/bin/eventhandler_linux.cc:262-269 | a new mask is registered in place of the old one; the invariant holds again afterwards |
| `EpollCommands.MessageIsObeyed` | runtime/bin/eventhandler_linux.cc:188-275 | a message acts on the object of its descriptor number, or on a new one without ports of the announced kind: a port listens for the given events with its own or the initial tokens, gets exactly the returned tokens, or leaves, the last one with the object; nobody else is touched, and the kernel watches a changed mask or its refusal is broadcast |
| `EpollCommands.SetMaskEffect` | runtime/bin/eventhandler_linux.cc:262-269 | after a message to listen the port is attached and waits for exactly the events, and the kernel watches the descriptor's new mask or has refused it, which all its ports are told |
| `EpollCommands.ConnectedIsWatched` | runtime/bin/eventhandler_linux.cc:262-269 | while a connected socket has tokens its mask is the events it was told, and the kernel watches in and out exactly as they say, unless it refused the same events before |
| `EpollCommands.ReturnEffect` | runtime/bin/eventhandler_linux.cc:257-261 | the port's tokens rise by exactly the returned count, and what can then be told is registered again |
| `EpollCommands.CloseEffect` | runtime/bin/eventhandler_linux.cc:216-256 | the port leaves, and a connected descriptor or one without other listeners goes from the map, the interest set and memory |
| `EpollCommands.UpdateSettles` | runtime/bin/eventhandler_linux.cc:128-140 | after a change of one descriptor the kernel watches in and out exactly as the new mask says, hang-ups always, edge-triggered exactly for connected sockets, or the refusal is broadcast; every other registration stays |
| `EpollCommands.RunEndsAtStop` | runtime/bin/eventhandler_linux.cc:381-403 | the loop handles every round up to and including the first that brings the shutdown message, and no later one |
| `EpollFaults.MessageBreaksIff` | runtime/bin/eventhandler_linux.cc:188-275 | a message fails no assertion if and only if the object found can carry out its command: the port is the right one, no mask is left on close, tokens stay within the initial amount and the events fit the kind of socket |
| `EpollTimers.EveryRunKeepsTimers` | runtime/bin/eventhandler_linux.cc:188-379 | over every legal run: the queue holds exactly the pending deadlines, the timer is armed for its front, no port is posted before its deadline and each setting yields at most one post |
| `EpollTimers.ArmedForMinimum` | runtime/bin/eventhandler_linux.cc:277-287 | when the queue is in heap order the timer is armed exactly for the earliest deadline; a deadline of zero disarms it like an empty queue |
| `EpollTimers.FittingRunIsArmedForMinimum` | runtime/bin/eventhandler_linux.cc:349-357 | a run in which every cancelled timer leaves a fitting gap keeps the timer armed for the earliest deadline throughout |
| `EpollTimers.HeapThroughoutIffRunFits` | runtime/bin/eventhandler_linux.cc:188-379 | from a queue in heap order, the order holds at every point of a run if and only if each cancellation handled in it leaves a gap that the last entry fits |
| `EpollTimers.ArmedForEarliestIff` | runtime/bin/eventhandler_linux.cc:277-287 | the timer is armed for the earliest deadline now and after every later mix of settings and expiries if and only if the queue is in heap order |
| `EpollTimers.CancelCanMissADeadline` | runtime/bin/eventhandler_linux.cc:188-379 | a legal run from the start, seven timer messages, a cancellation and two expiries, after which the timer is armed for 5 ms while a port waits for 3 |
| `EpollTimers.SettingInOrder` | runtime/bin/eventhandler_linux.cc:194-196 | any queue in heap order is what setting its timers in order produces |
| `EpollTimers.StartTimersOk` | runtime/bin/eventhandler_linux.cc:73-112 | the loop starts with the timer in step with an empty queue |
| `EpollTimers.SplitIsExact` | runtime/bin/eventhandler_linux.cc:281-283 | the split into seconds and nanoseconds is exact and the nanoseconds stay below 10^9 |
| `Flags.DecodeEncode` | runtime/bin/eventhandler.h:22-60 | every command word is decoded to its command and payload, with or without the listening flag |
| `Flags.EventMaskCases` | runtime/bin/eventhandler_linux.cc:321-341 | which events an epoll report stands for: each of error, in, out and close if and only if given bits are set and others are not, and exactly one branch of the loop applies |
| `Flags.OnlyWantedDirections` | runtime/bin/eventhandler_linux.cc:33-44 | in- and out-events are reported only for directions that were asked for |
| `DescriptorSpec.ActiveAlwaysExact` | runtime/bin/eventhandler.h:421-564 | after any sequence of operations the active list holds every ready port exactly once and nothing else |
| `DescriptorSpec.RoundRobin` | runtime/bin/eventhandler.h:510-530 | with k ready listeners the next k notifications reach each exactly once, in list order |
| `DescriptorSpec.MaskLastsForCredit` | runtime/bin/eventhandler.h:566-571 | without returned tokens the mask becomes empty exactly after the sum of all ready tokens has been spent |
| `DescriptorSpec.CreditIsSharedExactly` | runtime/bin/eventhandler.h:510-530 | until tokens are returned each listener receives exactly its own token count |
| `DescriptorEffects.MaskIsWishes` | runtime/bin/eventhandler.h:357-362 | a descriptor's mask is empty if and only if no port both waits for something and has a token; otherwise it is what such a port waits for |
| `DescriptorEffects.SetMaskListens` | runtime/bin/eventhandler.h:421-446 | the port is attached and waits for exactly the given events, keeping its tokens or starting with the initial ones; all other ports keep their wishes, tokens and turns, and a port newly ready comes last |
| `DescriptorEffects.ReturnEarns` | runtime/bin/eventhandler.h:552-564 | exactly the port's own tokens rise, by exactly the count, and wishes and turns stay |
| `DescriptorEffects.RemoveLeaves` | runtime/bin/eventhandler.h:474-496 | exactly the port goes, and the others keep wishes, tokens and turns |
| `DescriptorEffects.NotifyPays` | runtime/bin/eventhandler.h:510-530 | a notification is for the port in turn and costs only that port a token |
| `DescriptorEffects.BroadcastPays` | runtime/bin/eventhandler.h:532-550 | a broadcast costs every port one token and changes no wish |
| `DescriptorSpec.NextNotifyValid` | runtime/bin/eventhandler.h:510-530 | the port whose turn it is is attached, has a token left and the list stays exact |
| `DescriptorSpec.StillReadyStep` | runtime/bin/eventhandler.h:538-549 | removing ports from the ring one by one during a broadcast keeps exactly those still ready, in order |
| `CircularLists.CircularLinkedList.Add` | runtime/bin/eventhandler.h:120-136 | appends and tells whether the list was empty |
| `CircularLists.CircularLinkedList.RemoveHead` | runtime/bin/eventhandler.h:138-153 | drops the first element of the ring |
| `CircularLists.CircularLinkedList.Remove` | runtime/bin/eventhandler.h:155-183 | deletes the first occurrence or does nothing |
| `CircularLists.CircularLinkedList.RemoveAll` | runtime/bin/eventhandler.h:185-189 | empties the list; the callback sees every element once, in order |
| `CircularLists.CircularLinkedList.Head` | runtime/bin/eventhandler.h:191 | the first element |
| `CircularLists.CircularLinkedList.Rotate` | runtime/bin/eventhandler.h:195-200 | moves the first element to the end |
| `CircularLists.CircularLinkedList.BypassedRing` | runtime/bin/eventhandler.h:166-170 | linking around a node leaves a ring of the other nodes in their order |
| `Descriptors.DescriptorInfoMultiple.SetPortAndMask` | runtime/bin/eventhandler.h:421-472 | attaches a port or changes its interest, keeping the ring equal to the ready ports |
| `Descriptors.DescriptorInfoMultiple.RemovePort` | runtime/bin/eventhandler.h:474-496 | detaches a port; its entry leaves the ring before it is freed, and is freed once |
| `Descriptors.DescriptorInfoMultiple.RemoveAllPorts` | runtime/bin/eventhandler.h:498-508 | frees every entry exactly once and leaves nothing for the final sweep over the ring |
| `Descriptors.DescriptorInfoMultiple.NextNotifyDartPort` | runtime/bin/eventhandler.h:510-530 | serves the head of the ring and rotates it or drops it when its tokens are spent |
| `Descriptors.DescriptorInfoMultiple.NotifyAllDartPorts` | runtime/bin/eventhandler.h:532-550 | posts to every attached port and takes a token from each |
| `Descriptors.DescriptorInfoMultiple.ReturnTokens` | runtime/bin/eventhandler.h:552-564 | returns tokens and reactivates a port that becomes ready |
| `Descriptors.DescriptorInfoMultiple.Mask` | runtime/bin/eventhandler.h:566-571 | the mask read off the head pointer is the mask of the abstract descriptor |
| `Descriptors.DescriptorInfoSingle.NextNotifyDartPort` | runtime/bin/eventhandler.h:333-338 | takes a token and names the port |
| `Descriptors.DescriptorInfoSingle.NotifyAllDartPorts` | runtime/bin/eventhandler.h:340-350 | posts to the port, if there is one, and takes a token |
| `Descriptors.DescriptorInfoSingle.Mask` | runtime/bin/eventhandler.h:357-362 | empty once the tokens are spent |
| `Descriptors.DescriptorInfo.Destroy` | runtime/bin/eventhandler.h:417 | the destructor of a listening socket leaves no port attached and frees every entry exactly once |
| `DescriptorTables.DescriptorTable.SetPortAndMask` | runtime/bin/eventhandler_linux.cc:267-268 | an operation on one live descriptor object changes that descriptor alone; footprints never overlap |
| `DescriptorTables.DescriptorTable.Delete` | runtime/bin/eventhandler_linux.cc:245-246 | a deleted descriptor leaves the table after its destructor has freed the entry of every port still attached, each once; the others stay as they are |
| `EpollHandler.EventHandlerImplementation.AddToEpollInstance` | runtime/bin/eventhandler_linux.cc:53-71 | adds the descriptor to the interest set, or broadcasts a close when the kernel refuses it |
| `EpollHandler.EventHandlerImplementation.UpdateEpollInstance` | runtime/bin/eventhandler_linux.cc:128-140 | performs the registration step of the state machine |
| `EpollHandler.EventHandlerImplementation.GetDescriptorInfo` | runtime/bin/eventhandler_linux.cc:142-162 | finds the descriptor of a number or creates it |
| `EpollHandler.EventHandlerImplementation.UpdateTimerFd` | runtime/bin/eventhandler_linux.cc:277-287 | arms the timer as the state machine does |
| `EpollHandler.EventHandlerImplementation.HandleTimer` | runtime/bin/eventhandler_linux.cc:349-357 | posts the front timer and re-arms |
| `EpollHandler.EventHandlerImplementation.HandleReady` | runtime/bin/eventhandler_linux.cc:358-371 | handles one reported descriptor as the state machine does |
| `EpollHandler.EventHandlerImplementation.HandleClose` | runtime/bin/eventhandler_linux.cc:216-256 | closes a socket as the state machine does |
| `EpollHandler.EventHandlerImplementation.HandleReturn` | runtime/bin/eventhandler_linux.cc:257-261 | returns tokens as the state machine does |
| `EpollHandler.EventHandlerImplementation.HandleSetMask` | runtime/bin/eventhandler_linux.cc:262-269 | sets a mask as the state machine does |
| `EpollHandler.EventHandlerImplementation.HandleInterruptFd` | runtime/bin/eventhandler_linux.cc:188-275 | handles a block of interrupt messages as the state machine does |
| `EpollHandler.EventHandlerImplementation.HandleEvents` | runtime/bin/eventhandler_linux.cc:343-379 | handles a batch and then the messages; the invariant of the state machine holds afterwards |
| `EpollHandler.EventHandlerImplementation.Poll` | runtime/bin/eventhandler_linux.cc:381-403 | the whole loop over objects in memory is a run of the state machine, so all that is proved of its runs holds of the objects, and its footprint grows only by new objects |
| `HeapSpec.RemoveAtKeepsHeapIff` | runtime/platform/priority_queue.h:150-166 | removal keeps the heap order if and only if the last entry does not come before the parent of the gap, since the replacement is only sifted down |
| `HeapSpec.UpdateTimeoutKeepsHeapIff` | runtime/bin/eventhandler.h:86-92 | updating a timeout keeps the heap order except exactly when it cancels an entry whose gap the last one does not fit |
| `HeapSpec.CancelCanHideTheMinimum` | runtime/platform/priority_queue.h:150-160 | seven settings, one cancellation and two expiries leave 5 in front while 3 is still queued |
| `HeapFronts.FrontStaysMinimumIff` | runtime/bin/eventhandler.h:63-98 | the earliest deadline is in front now and after every later sequence of settings and expiries if and only if the queue is in heap order |
| `HeapFronts.CancelKeepsFrontIff` | runtime/bin/eventhandler.h:86-92 | after a cancellation that goes on being so if and only if the last entry fitted the gap |
| `HeapSpec.SetInOrder` | runtime/bin/eventhandler.h:86-92 | every queue in heap order is what setting its entries in order produces |
| `HeapSpec.InsertKeepsHeap` | runtime/platform/priority_queue.h:49-60 | insertion keeps the heap order |
| `HeapSpec.ChangePriorityKeepsHeap` | runtime/platform/priority_queue.h:96-120 | a changed priority keeps the heap order |
| `HeapSpec.BubbleUpHeap` | runtime/platform/priority_queue.h:168-178 | sifting up repairs a heap that is wrong only above one place |
| `HeapSpec.BubbleDownHeap` | runtime/platform/priority_queue.h:180-209 | sifting down repairs a heap that is wrong only below one place |
| `HeapSpec.HeapMinimum` | runtime/platform/priority_queue.h:62-68 | in heap order the first entry is a minimum |
| `HeapSpec.UpdateTimeoutEntries` | runtime/bin/eventhandler.h:86-92 | a timeout update changes the entry of that port and no other, and never queues a port twice |
| `HeapSpec.RemoveAtEntries` | runtime/platform/priority_queue.h:150-166 | removal takes out exactly one entry |
| `PriorityQueues.PriorityQueue.BubbleUp` | runtime/platform/priority_queue.h:168-178 | the in-place loop computes the sift-up and keeps the offset map exact |
| `PriorityQueues.PriorityQueue.BubbleDown` | runtime/platform/priority_queue.h:180-209 | the in-place loop computes the sift-down and keeps the offset map exact |
| `PriorityQueues.PriorityQueue.Insert` | runtime/platform/priority_queue.h:49-60 | inserts in place, growing the backing array when it is full |
| `PriorityQueues.PriorityQueue.RemoveAt` | runtime/platform/priority_queue.h:150-166 | removes in place, shrinking the backing array, and keeps the offset map exact |
| `PriorityQueues.PriorityQueue.RemoveByValue` | runtime/platform/priority_queue.h:79-89 | removes the entry of a value, or reports that there is none |
| `PriorityQueues.PriorityQueue.InsertOrChangePriority` | runtime/platform/priority_queue.h:96-120 | queues a value or moves it to its new priority |
| `PriorityQueues.TimeoutQueue.UpdateTimeout` | runtime/bin/eventhandler.h:86-92 | a negative timeout cancels, any other sets |
| `PriorityQueues.TimeoutQueue.RemoveCurrent` | runtime/bin/eventhandler.h:84 | removes the front entry |
| `ListingProofs.PausingIsInvisible` | runtime/bin/directory.cc:320-339 | whatever the response lengths of a series of requests, the records handed out followed by those pending are always the same sequence, and as many requests as there are records finish the listing |
| `ListingProofs.AsyncListingIsTheWalk` | runtime/bin/directory.cc:516-556 | a finished listing is the preorder walk of the file system followed by one final record; an unopenable subdirectory adds one error record and its siblings are still listed |
| `ListingProofs.SyncListingIsTheWalkUpToError` | runtime/bin/directory.cc:427-514 | a synchronous listing is the preorder walk up to its first error, which ends it, and does not report the end |
| `ListingProofs.FillCorrect` | runtime/bin/directory.cc:379-425 | a response never overflows, makes progress and is full unless the listing is finished |
| `ListingProofs.StepCorrect` | runtime/bin/directory.cc:516-546 | one step hands out the next pending record or leaves a finished directory |
| `ListingProofs.NextCorrect` | runtime/bin/directory_linux.cc:100-239 | one step within a directory keeps the frames below and the shared path intact and reports the next entry |
| `ListingProofs.ReadCorrect` | runtime/bin/directory_linux.cc:136-238 | reading on skips exactly the dot entries |
| `ListingProofs.StartIsPendingListing` | runtime/bin/directory.h:93-106 | a new listing has the whole walk still to report |
| `ListingSpec.DescentDecreases` | runtime/bin/directory_linux.cc:178-209 | entering a directory uses up a link that was not on the chain or goes down in the tree of real directories, so listing terminates even with cyclic links, and no link occurs twice on a chain |
| `ListingSpec.TypeHintIsIrrelevant` | runtime/bin/directory_linux.cc:145-227 | whether readdir knows an entry's type makes no difference to how the entry is listed |
| `ListingSpec.FollowedIff` | runtime/bin/directory_linux.cc:178-209 | a link is followed if and only if that was asked for, it leads to a directory and it is not being followed already; a looping link is reported as a link |
| `ListingWalk.NothingListedTwice` | runtime/bin/directory_linux.cc:100-239 | no path is reported twice |
| `ListingWalk.WalkIsExactlyTheRoutes` | runtime/bin/directory_linux.cc:100-239 | an entry is listed if and only if a route of names leads to it from the root, under root, names and separators, with the kind that the inode at the end of the route has under the links followed on the way |
| `ListingKinds.KindOfEntry` | runtime/bin/directory_linux.cc:145-227 | told by the inodes alone: an entry is a file if and only if it is one or a followed link to something that exists and is no directory, a link if and only if it is one and not followed, on the chain or dangling, a subdirectory if and only if it is one or a followed link to one and no dot entry, and an error if and only if stat is needed and fails |
| `ListingFailures.ErrorsAreExactlyTheCauses` | runtime/bin/directory_linux.cc:100-239 | an error is reported at a path if and only if something there causes one: a directory on a route that cannot be opened or breaks off, or an entry whose stat is needed and fails |
| `ListingRoom.RoomyStep` | runtime/bin/directory_linux.cc:73-90 | when root and records leave room in the path buffer, every later step still does |
| `PathBuffers.PathBuffer.Add` | runtime/bin/directory_linux.cc:73-85 | appends exactly if the sum of lengths is below the limit; at the limit it reports success but the last character is lost, above it fails and leaves a truncated text, and a full buffer stays as it is |
| `PathBuffers.PathBuffer.Reset` | runtime/bin/directory_linux.cc:87-90 | cuts the text back |
| `DirectoryListings.Seen` | runtime/bin/directory_linux.cc:181-191 | the scan over the chain finds a link exactly when it is on it |
| `DirectoryListings.DirectoryListingEntry.ResetLink` | runtime/bin/directory_linux.cc:249-258 | deletes the node the entry owns, if any, exactly once, and shares the parent's chain again |
| `DirectoryListings.DirectoryListingEntry.FollowLink` | runtime/bin/directory_linux.cc:200-203 | puts one new node in front of the parent's chain |
| `DirectoryListings.DirectoryListing.constructor` | runtime/bin/directory.h:93-106 | starts with the root path and one entry; an over-long root is an error |
| `DirectoryListings.DirectoryListing.Next` | runtime/bin/directory_linux.cc:100-239 | one call on the top entry is one step of the stack machine |
| `DirectoryListings.DirectoryListing.Read` | runtime/bin/directory_linux.cc:136-238 | reads entries of the open directory until one is to be reported, as the stack machine does |
| `DirectoryListings.DirectoryListing.Classified` | runtime/bin/directory_linux.cc:145-227 | what an entry is, by its type and otherwise by stat, with the loop check on the chain |
| `DirectoryListings.DirectoryListing.OpenDirectory` | runtime/bin/directory_linux.cc:105-132 | opens the top directory, adding the separator, or marks it done |
| `DirectoryListings.DirectoryListing.Push` | runtime/bin/directory.h:116 | starts a subdirectory that relies on its parent's chain |
| `DirectoryListings.DirectoryListing.Pop` | runtime/bin/directory.h:118-123 | deletes the top entry after it has given up the link it owns |
| `DirectoryListings.DirectoryListing.PopAll` | runtime/bin/directory.h:127-131 | abandons a listing at any point: every link ever made has been deleted, each once |
| `DirectoryListings.DirectoryListing.NoDanglingLink` | runtime/bin/directory_linux.cc:249-258 | no entry on the stack ever holds a deleted link |
| `DirectoryListings.DirectoryListing.Step` | runtime/bin/directory.cc:516-546 | one step of the listing over objects in memory is one step of the stack machine |
| `AsyncListings.AsyncDirectoryListing.SetArray` | runtime/bin/directory.h:183-188 | a fresh response with no records |
| `AsyncListings.AsyncDirectoryListing.AddFileSystemEntityToResponse` | runtime/bin/directory.cc:379-395 | adds one record in two slots and tells whether there is room for more |
| `AsyncListings.AsyncDirectoryListing.ListNext` | runtime/bin/directory.cc:516-546 | one step, its record added to the response |
| `AsyncListings.AsyncDirectoryListing.List` | runtime/bin/directory.cc:548-556 | fills the response as far as the state machine's run does |
| `AsyncListings.AsyncDirectoryListing.ListNextRequest` | runtime/bin/directory.cc:320-339 | a request is one request of the state machine, for any even length, and leaves the listing, its buffer and its entries as the next request needs them |
| `AsyncListings.AsyncDirectoryListing.ListStopRequest` | runtime/bin/directory.cc:341-358 | nothing is left open and every link has been deleted |
| `AsyncListings.AsyncDirectoryListing.constructor` | runtime/bin/directory.h:167-175 | a listing of a root whose records fit the path buffer starts valid, on objects of its own |
| `AsyncListings.ListWith` | runtime/bin/directory.cc:320-339 | the answers to a series of requests of any even lengths, put together, begin the preorder walk with its final record, are all of it once the listing is finished, and more requests than there are records finish it |
| `RecursiveDelete.Delete` | runtime/bin/directory_linux.cc:516-533 | for every path and buffer length: success removes exactly the node the path is about and all below it; failure removes only nodes where the path leads, which is within that node unless the path goes on after a link to a directory, and then it fails; without faults of the system the effect is exact for all contents that fit the buffer, whether or not the path lasts, and at and above the limit for all |
| `RecursiveDelete.DeletionSucceedsIff` | runtime/bin/directory_linux.cc:282-345 | without faults a deletion succeeds if and only if the path names a file, a link, or a directory itself by a way that does not pass through the directory's contents; if it fails on a directory, the contents are gone in listing order as far as the path lasted |
| `RecursiveDelete.OutcomesStayWithinIff` | runtime/bin/directory_linux.cc:282-345 | without faults, for every path: what is removed lies within the node the path is about if and only if the path does not go on after a link to a directory, or that directory is empty, or the first of its contents to go is the link itself |
| `RecursiveDelete.LinkSlash` | runtime/bin/directory_linux.cc:282-345 | for every path to a link to a directory: with a separator at the end the directory is emptied as far as the path lasts, wholly if the path does not pass through it, and the deletion fails |
| `RecursiveDelete.DirectorySlash` | runtime/bin/directory_linux.cc:282-345 | for every path to a directory: a separator at the end makes no difference to what is removed or reported |
| `RecursiveDelete.LimitPathDeletesAnother` | runtime/bin/directory_linux.cc:516-533 | a whole path that ends at the limit of the buffer loses its last character: the file or link that goes then lies within what the path is about if and only if that character was a separator |
| `DeletionSpec.RemovalIff` | runtime/bin/directory_linux.cc:316-345 | emptying a directory through a path and removing it through the same path succeeds if and only if the path names the directory itself and does not pass through its contents |
| `DeletionSpec.RemovedIsSteady` | runtime/bin/directory_linux.cc:333-339 | if the last call removes the directory, the path to it did not need any of its contents |
| `DeletionSpec.StaysWithinIff` | runtime/bin/directory_linux.cc:282-345 | the same exact condition on components of paths |
| `DeletionSpec.ThroughLinkEmpties` | runtime/bin/directory_linux.cc:316-345 | a path that goes on after a link empties the directory the link leads to as far as the path lasts, and cannot remove it |
| `Purges.TakenIsProgress` | runtime/bin/directory_linux.cc:316-391 | deleting the entries of a directory in listing order, each through its own path, is the same as removing one node after the other, children first, until the path to the directory is lost |
| `Purges.ChildPurge` | runtime/bin/directory_linux.cc:346-391 | emptying the next subdirectory is a part of emptying the directory, also when the path is lost in the middle of it |
| `Purges.PurgedFacts` | runtime/bin/directory_linux.cc:316-345 | only contents go, the rest stays a tree, and all of them go if the path lasts |
| `Purges.SteadyPurges` | runtime/bin/directory_linux.cc:316-345 | through a path that does not pass through them all contents go |
| `Purges.SteadyHolds` | runtime/bin/directory_linux.cc:316-345 | such a path leads to the directory whatever is gone below it |
| `DeletionExamples.LinkSlashEmptiesTheTarget` | runtime/bin/directory_linux.cc:282-345 | on a disk with a link beside its directory, whatever the names, deleting link/ removes a file outside of the link |
| `DeletionExamples.DeleteLinkSlash` | runtime/bin/directory_linux.cc:516-533 | on that disk the modelled deletion, unless a system call fails, reports failure with the file gone |
| `DeletionExamples.LoopLosesItself` | runtime/bin/directory_linux.cc:282-345 | on a disk where a directory lists a link to itself first, deleting dir/link/ removes the link alone and fails |
| `DeletionExamples.DetourIsLost` | runtime/bin/directory_linux.cc:282-345 | every path of the form d/a/b/../../a names the directory a and leads nowhere once b is gone |
| `DeletionExamples.DetourStopsHalfWay` | runtime/bin/directory_linux.cc:282-345 | deleting a plain directory by such a path removes the subdirectory, leaves a file and fails |
| `DeletionExamples.DeleteDetour` | runtime/bin/directory_linux.cc:516-533 | on that disk the modelled deletion does so unless a system call fails |
| `Disks.LeadShrinks` | runtime/bin/directory_linux.cc:282-345 | while nodes disappear a path leads where it did or nowhere, never elsewhere |
| `RecursiveDelete.DeleteRecursively` | runtime/bin/directory_linux.cc:282-401 | the same for the path in the buffer, also a full one; a link is removed itself, and a missing path fails or not as asked |
| `RecursiveDelete.DeleteOpened` | runtime/bin/directory_linux.cc:297-345 | opens, empties and removes a directory through one path; without faults the outcome is exactly the removal that the specification describes |
| `RecursiveDelete.DeleteContents` | runtime/bin/directory_linux.cc:316-391 | only contents go; when the loop ends well each name the buffer showed is gone or the path was lost on the way; without faults exactly those go that the path reaches in listing order |
| `RecursiveDelete.DeleteEntry` | runtime/bin/directory_linux.cc:346-391 | one entry, by its reported type or by stat; dot entries are left alone |
| `RecursiveDelete.DeleteFile` | runtime/bin/directory_linux.cc:264-272 | removes the one file or link that the buffer shows, missing counting as removed; the file asked for is gone if and only if its path ends below the limit |
| `RecursiveDelete.LimitDeletesAnother` | runtime/bin/directory_linux.cc:264-272 | at the limit the entry asked for stays and the one whose name lacks the last character goes instead, outside of what was asked for |
| `RecursiveDelete.DeleteDir` | runtime/bin/directory_linux.cc:274-280 | skips dot entries and deletes any other directory recursively |
| `RecursiveDelete.NothingLeft` | runtime/bin/directory_linux.cc:316-345 | a directory is empty when every name shown for its entries is gone and no entry's path ends at the limit |
| `FuchsiaHandles.EdgesAreSimulated` | runtime/bin/eventhandler_fuchsia.cc:280-364 | over all interleavings of both threads: an out-event is delivered if and only if it is signalled and a write separates it from every earlier one; an in-event if and only if the input announced by every earlier quieting one was consumed, told by the announcements and reads of the run alone; a close-event only the first time |
| `FuchsiaHandles.DeliveriesAreSeparated` | runtime/bin/eventhandler_fuchsia.cc:280-364 | the same for pairs of deliveries: a write between two out-events, an accept, a failing read or a read leaving no bytes after a quieting in-event, never two close-events |
| `FuchsiaHandles.CountIsUnread` | runtime/bin/eventhandler_fuchsia.cc:78-108 | the byte counter is what the run announced and has not read since: the last announcement, one for an error, less the positive reads after it and not below zero |
| `FuchsiaHandles.PartialReadConsumesNothing` | runtime/bin/eventhandler_fuchsia.cc:85-97 | a read that leaves announced bytes does not re-enable in-events |
| `FuchsiaHandles.IOHandle.Read` | runtime/bin/eventhandler_fuchsia.cc:78-108 | accounts for the bytes read and re-enables in-events when none are left or the read failed |
| `FuchsiaHandles.IOHandle.Write` | runtime/bin/eventhandler_fuchsia.cc:110-128 | re-enables out-events |
| `FuchsiaHandles.IOHandle.Accept` | runtime/bin/eventhandler_fuchsia.cc:130-148 | re-enables in-events |
| `FuchsiaHandles.IOHandle.AvailableBytes` | runtime/bin/eventhandler_fuchsia.cc:150-163 | remembers the number of available bytes, one in case of an error |
| `FuchsiaHandles.IOHandle.ToggleEvents` | runtime/bin/eventhandler_fuchsia.cc:280-364 | delivers the events that are not suppressed and suppresses them from now on |
| `Kqueue.EveryRunIsTracked` | runtime/bin/eventhandler_macos.cc:147-159 | over every legal run, refused registrations included: tracked means registered for exactly the filters of a current non-empty mask, without refusals also the converse, and no assertion of the registration code or the event loop fails |
| `Kqueue.UpdateKeepsInv` | runtime/bin/eventhandler_macos.cc:147-159 | after any change of a descriptor the registration step restores the match; what it adds was not tracked and has a filter |
| `Kqueue.LegalBatch` | runtime/bin/eventhandler_macos.cc:379-411 | every event of a batch finds a port, also the second one of a descriptor |
| `Kqueue.EventSoundIff` | runtime/bin/eventhandler_macos.cc:379-404 | an event other than an error fails no assertion if and only if there is a port to tell |
| `Kqueue.SecondEventOverdraws` | runtime/bin/eventhandler_macos.cc:379-411 | two events of one batch can take a counter from one token to minus one |
| `KqueueProofs.EveryRunIsSafe` | runtime/bin/eventhandler_macos.cc:206-411 | over every legal run with any number of descriptors, the socket map, closing, deletion and reused numbers: every event of a batch names a live descriptor, each notification goes to a legal port, every registration carries the live object of its number with exactly the filters of its mask, the credits balance and a connected socket overdraws by one token at most; of all assertions only the one on events of listening sockets can fail, and it does if and only if the close of one is reported |
| `KqueueProofs.RoundKeepsInv` | runtime/bin/eventhandler_macos.cc:379-411 | one batch and then its messages keep all of that |
| `KqueueProofs.EveryEventIsLive` | runtime/bin/eventhandler_macos.cc:379-411 | when the turn of an event comes, also the second one of a descriptor, the object it carries is alive and has a port for it |
| `KqueueProofs.OthersStayDeliverable` | runtime/bin/eventhandler_macos.cc:389-404 | handling one event leaves every later event of the batch deliverable, whatever it registers or withdraws |
| `KqueueProofs.LegalIsDeliverable` | runtime/bin/eventhandler_macos.cc:379-411 | events fetched from the registrations of any reachable state are deliverable: a listening socket has one event at most, a connected one two and then a token for the first |
| `KqueueProofs.UpdateSimulates` | runtime/bin/eventhandler_macos.cc:147-159 | on the loop's map of registrations the registration step does to one descriptor what it does to that descriptor alone, and nothing to others |
| `KqueueProofs.ReadyKeepsInv` | runtime/bin/eventhandler_macos.cc:389-404 | one event on a live descriptor keeps the invariant and fails the assertion on listening sockets exactly for a reported close |
| `KqueueProofs.CloseDeletes` | runtime/bin/eventhandler_macos.cc:233-273 | closing takes the number out of the map and deletes the object, and no registration that carries it is left |
| `KqueueProofs.CloseKeepsOthers` | runtime/bin/eventhandler_macos.cc:233-273 | a listening socket with other listeners loses one port and stays |
| `KqueueProofs.ReturnKeepsInv` | runtime/bin/eventhandler_macos.cc:274-277 | a port that returns no more than it received stays within its initial amount |
| `KqueueProofs.SetMaskKeepsInv` | runtime/bin/eventhandler_macos.cc:278-287 | a new mask is registered in place of the old one |
| `KqueueCommands.MessageIsObeyed` | runtime/bin/eventhandler_macos.cc:206-292 | a message acts on the object of its descriptor number, or on a new one without ports of the announced kind, and does to ports, tokens and registrations exactly what its command says |
| `KqueueCommands.SetMaskEffect` | runtime/bin/eventhandler_macos.cc:278-287 | after a message to listen the port is attached and waits for exactly the events, and the kernel holds the filters of the new mask or has refused them, which all ports are told |
| `KqueueCommands.ConnectedIsWatched` | runtime/bin/eventhandler_macos.cc:278-287 | while a connected socket has tokens its mask is the events it was told, and the kernel holds the read filter exactly for in and the write filter exactly for out, unless it refused the same events before |
| `KqueueCommands.ReturnEffect` | runtime/bin/eventhandler_macos.cc:274-277 | the port's tokens rise by exactly the returned count, and what can then be told is registered again |
| `KqueueCommands.CloseEffect` | runtime/bin/eventhandler_macos.cc:233-273 | the port leaves, and a connected descriptor or one without other listeners goes from the map, the kernel and memory |
| `KqueueCommands.UpdateSettles` | runtime/bin/eventhandler_macos.cc:147-159 | after a change of one descriptor the kernel holds exactly the filters of the new mask, or the refusal is broadcast; every other registration stays |
| `KqueueCommands.RunEndsAtStop` | runtime/bin/eventhandler_macos.cc:433-472 | the loop handles every round up to and including the first that brings the shutdown message, and no later one |
| `KqueueEffects.ReadyEffect` | runtime/bin/eventhandler_macos.cc:389-404 | an event on a live descriptor is posted exactly once: an end of file with an error to all its ports, any other to the port in turn with its own direction and a close exactly for an end of the reading side; each port told pays one token |
| `KqueueEffects.BatchIsAnswered` | runtime/bin/eventhandler_macos.cc:379-411 | the notifications of a batch are, in order, one for each of its events, also when two are for the same descriptor |
| `KqueueEffects.ReportsAreWanted` | runtime/bin/eventhandler_macos.cc:330-377 | an event of a registered filter is for a direction in the mask the descriptor had when the batch was fetched, and its notification tells of no other direction |
| `KqueueFaults.EventBreaksIff` | runtime/bin/eventhandler_macos.cc:389-404 | an event fails no assertion if and only if its object is alive, has a port to tell, and, when it is a listening socket, hears of new connections only |
| `KqueueFaults.MessageBreaksIff` | runtime/bin/eventhandler_macos.cc:206-292 | a message fails no assertion if and only if the object found can carry out its command |
| `KqueueProofs.GetKeepsInv` | runtime/bin/eventhandler_macos.cc:161-183 | a number is found in the map or gets a new object, with no registration left from an earlier one |
| `KqueueProofs.NotifyBalance` | runtime/bin/eventhandler.h:510-530 | a notification takes one token from exactly the port it is posted to |
| `KqueueProofs.StartIsSafe` | runtime/bin/eventhandler_macos.cc:96-128 | the loop starts in such a state |
| `KqueueProofs.ListeningCloseFails` | runtime/bin/eventhandler_macos.cc:336-350 | wherever a listening socket is registered, the report of its close fails an assertion |
| `KqueueProofs.ListeningCloseCanHappen` | runtime/bin/eventhandler_macos.cc:336-350 | a legal run from the start that does so |
| `KqueueLoop.GetEvents` | runtime/bin/eventhandler_macos.cc:330-377 | bit by bit which events a report stands for: an error exactly for an end of file with an error flag, and otherwise out exactly for the write filter, in exactly for the read filter unless a listening socket has ended, a close exactly for an ended read filter |
| `Kqueue.WaitNeverOutlasts` | runtime/bin/eventhandler_macos.cc:413-420 | with timers in heap order the computed wait goes past no deadline |
| `Kqueue.WakesByIff` | runtime/bin/eventhandler_macos.cc:440-456 | in general the loop wakes by a deadline exactly when the front timer is due, not later, or further off than the cap |
| `Kqueue.CancelCanOversleep` | runtime/bin/eventhandler_macos.cc:413-431 | seven timers are set, one is cancelled and two expire; then the loop sleeps past a deadline |
| `Kqueue.WaitIsExact` | runtime/bin/eventhandler_macos.cc:440-456 | the timespec is exact for the capped wait, and the wait is endless only without timers |
| `KqueueHandlers.KqueueDescriptor.RemoveFromKqueue` | runtime/bin/eventhandler_macos.cc:42-54 | withdraws both filters of a tracked descriptor |
| `KqueueHandlers.KqueueDescriptor.AddToKqueue` | runtime/bin/eventhandler_macos.cc:57-94 | registers the filters of the mask or broadcasts a close; its assertions hold |
| `KqueueHandlers.KqueueDescriptor.UpdateKQueueInstance` | runtime/bin/eventhandler_macos.cc:147-159 | performs the registration step |
| `KqueueHandlers.KqueueDescriptor.HandleEvent` | runtime/bin/eventhandler_macos.cc:389-404 | posts one event to legal ports only and keeps the match |
| `KqueueHandlers.KqueueDescriptor.SetEventMask` | runtime/bin/eventhandler_macos.cc:279-287 | sets a mask and keeps the match |
| `KqueueHandlers.KqueueTimers.NextWait` | runtime/bin/eventhandler_macos.cc:440-456 | the wait handed to the kernel, outlasting no deadline while the queue is in heap order |
| `KqueueHandlers.KqueueTimers.HandleTimeout` | runtime/bin/eventhandler_macos.cc:422-431 | posts to the front port when its deadline has come, and to no other |
| `KqueueHandlers.KqueueTimers.HandleMessages` | runtime/bin/eventhandler_macos.cc:206-214 | timer messages set and cancel, in order, in the queue's own array |
| `KqueueHandlers.MessagesSettle` | runtime/bin/eventhandler_macos.cc:206-214 | whatever the messages, each port ends up queued once, at the time last set for it, or not at all if it was cancelled last |
| `KqueueHandlers.NothingElseSettles` | runtime/bin/eventhandler_macos.cc:206-214 | nothing else is queued |
| `KqueueHandlers.SleepAfter` | runtime/bin/eventhandler_macos.cc:440-456 | after any timer messages the loop sleeps forever if and only if no port has a timer set in the end, and past no deadline last set if every cancellation left a gap that the last entry fitted |
| `ElfLoader.MappingIsAligned` | runtime/bin/elf_loader.cc:280-290 | every mapping starts at a page boundary in memory and in the file and covers the segment |
| `ElfLoader.InsideIff` | runtime/bin/elf_loader.cc:249-268 | a segment lies inside the reserved image if and only if its offset plus size does not wrap around |
| `ElfLoader.PagesInside` | runtime/bin/elf_loader.cc:249-290 | the whole pages of a segment lie inside the reserved image |
| `ElfLoader.TotalIsReached` | runtime/bin/elf_loader.cc:249-264 | the reserved image ends where some segment does, so it is no larger than it must be |
| `ElfLoader.SupportedIff` | runtime/bin/elf_loader.cc:290-299 | a segment's flags are accepted if and only if it is readable and not both writable and executable |
| `ElfLoader.PowerOfTwoIff` | runtime/bin/elf_loader.cc:261-262 | the alignments accepted are exactly the powers of two |
| `ElfLoader.LoadedElf.LoadSegments` | runtime/bin/elf_loader.cc:249-340 | success means every header was acceptable, every page mapped lies inside the reserved image and every byte of every segment is its file byte, for page-disjoint segments without wrap-around; failure names a header at fault or the system |
| `ElfLoader.LoadedElf.Load` | runtime/bin/elf_loader.cc:132-155 | checks first that the object starts at a page boundary, and then promises what the loading of the segments does, pages inside the image included |
| `ElfLoader.LoadedElf.MapFilePiece` | runtime/bin/elf_loader.cc:399-416 | the returned place in the mapping holds the requested bytes of the file |
| `ElfLoader.PieceStartIsRightIff` | runtime/bin/elf_loader.cc:402-413 | the returned pointer is right if and only if the object starts at a page boundary of the file |
| `ElfLoader.PieceIsCovered` | runtime/bin/elf_loader.cc:402-408 | the mapping is made of whole pages and covers the piece |
| `KernelLists.TryReadKernelListBuffer` | runtime/bin/dfe.cc:363-413 | succeeds if and only if every terminated line names a readable kernel, with exactly their concatenation in order and the sum of their sizes; on failure the size is reset only if the file at fault could be read, and only then are the nodes deleted |
| `KernelLists.LinesOfUnlines` | runtime/bin/dfe.cc:376-408 | terminated lines are read back exactly and an unterminated rest is ignored |
| `KernelLists.SizeIsTotal` | runtime/bin/dfe.cc:305-309 | the length of the concatenation is the sum of the sizes |
| `KernelLists.NamesAreBesideTheList` | runtime/bin/dfe.cc:363-388 | a relative name is taken below the list's own directory and an absolute one as it is |
| `KernelLists.KernelIsToldByMagic` | runtime/bin/dfe.cc:249-268 | a file is a kernel if and only if its first four bytes are one of the two magic numbers |
| `KernelLists.KernelIRList.Add` | runtime/bin/dfe.cc:294-303 | appends a node |
| `KernelLists.KernelIRList.Merge` | runtime/bin/dfe.cc:305-321 | one buffer with the bytes of all nodes in order |
| `KernelLists.KernelIRList.Delete` | runtime/bin/dfe.cc:323-330 | deletes every node, each once |
| `KernelLists.NextName` | runtime/bin/dfe.cc:378-390 | cuts the buffer at the newline and reads the name up to its first NUL |
| `Shutdown.SafeIffNoSpuriousWakeUps` | runtime/bin/eventhandler.cc:38-67 | nothing is freed while the other thread uses it on every run if and only if waits never wake up spuriously; then some thread can always go on and the handshake finishes |
| `Shutdown.StepKeepsInv` | runtime/bin/eventhandler.cc:38-67 | the notification always finds the stopping thread asleep: no wake-up is lost |
| `Shutdown.EarlyWakeUpIsUnsafe` | runtime/bin/eventhandler.cc:46-61 | in any state where the stopping thread sleeps and the other does not hold the monitor yet, one spurious wake-up lets it free the handler too early |
| `Shutdown.SpuriousWakeUpFreesTooEarly` | runtime/bin/eventhandler.cc:46-61 | one spurious wake-up frees the handler while it is still serving |

## Left out

- System calls are nondeterministic or table-driven stand-ins with the outcome the caller sees; errno values other than
  "no such entry" and all log output are not modelled.
- The loops rely on what the code only asserts: a message to listen carries a legal port, a connected descriptor is used
  with one port, a shared descriptor is closed only when no listener remains, and a port returns no more tokens than it
  received. On Linux a batch names a descriptor once, and a listening one with readiness or an error and nothing else; on
  macOS it names each registration once. `EpollFaults` and `KqueueFaults` say which assertions fail otherwise.
- The hash maps of the source are maps; their iteration order is arbitrary and their buckets are not modelled.
- Reference counts of sockets, the listening socket registry, signal sockets, and the reading and writing of the interrupt
  pipe, whose messages arrive as a sequence.
- The Windows event handler and the Windows, macOS and Fuchsia variants of the directory walk.
- The Fuchsia port loop around the handle, whose registration code repeats the Linux one.
- The Dart objects a synchronous listing builds; only the sequence of its records is modelled.
- File systems change only through the modelled deletion; a listing sees a fixed file system, a deletion may meet entries
  that are already gone but no new ones.
- `openat` and `fdopendir` are one step that succeeds or fails; a descriptor left open by a failing `fdopendir` is not
  tracked.
- The remaining ELF tables, symbol resolution, memory protection and the Fuchsia mapping path; bytes past the end of the
  file read as zero.
- Kernel and snapshot files other than kernel lists, and URI decoding of file names.
- DirectoryListings.DirectoryListing.Next: relies on every path of the listing, with its separator and dot entries, staying
  below the limit of the path buffer, because at the limit the buffer loses a character.
- AsyncListings.AsyncDirectoryListing.ListNextRequest: the same, and the response length is a parameter, even and positive,
  where the source uses 128.
- RecursiveDelete.Delete: the exact effect without faults is for contents whose paths stay below the limit of the buffer;
  beyond that only what success and failure may remove. A link is given with the place it finally leads to, so links in
  the middle of a link's target are not resolved step by step. Deletion without recursion is one system call and left out.
- ListingProofs.AsyncListingIsTheWalk: the root path ends with a separator, as sdk/lib/io/directory_impl.dart:247 and 265
  see to with `_ensureTrailingPathSeparators`.
- ListingProofs.StartIsPendingListing: the same.
- ListingProofs.SyncListingIsTheWalkUpToError: the same.
- AsyncListings.ListWith: the same, and the room of the path buffer as above.
- EpollTimers.FittingRunIsArmedForMinimum: covers runs whose cancellations leave fitting gaps; in others the timer is armed
  for the front of the queue, which need not be the earliest deadline.
- Kqueue.EveryRunIsTracked: follows one descriptor at a time; the whole loop is the subject of
  `KqueueProofs.EveryRunIsSafe`. Registration of the two filters of a descriptor succeeds or fails as a whole.
- KqueueProofs.EveryRunIsSafe: the loop is a state machine over values; only one descriptor's code and the timer queue are
  also modelled as objects on macOS. Timer messages leave the state of this machine alone.
- ElfLoader.LoadedElf.LoadSegments: says which byte is where only for segments on disjoint pages and sums that do not wrap
  around.
