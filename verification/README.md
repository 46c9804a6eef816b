# Verified models of TécnicoFS and its message broker

The repository is an in-memory file system (TécnicoFS), a broker that keeps one file of it per
message box, and the clients that publish to boxes, subscribe to them and manage them. This project
models four parts of it that stack on each other, and proves what they promise.

**The file system** (`fs/state.c`, `fs/operations.c`). `FileSystem.dfy` has the tables as arrays of a
class, changed in place by the same first-fit loops and directory scans. `FsState.dfy` has the same calls
as functions of the tables, with `size_t` wrap-around written out, and the ownership invariant: each taken
block belongs to exactly one non-empty taken inode, used directory slots and taken inodes correspond one
to one, used names are distinct, stored with a terminator and not empty, a free slot below a used one holds
the empty name, the root keeps its block. It holds from `tfs_init` on, whatever the memory held.
`FsSpec.dfy` is the promise: a finite map from names to bytes, and handles with positions,
where every failure is decided by counting. `FsAbstraction`, `FsSteps`, `FsContents` and `FsRefinement`
prove that each `tfs_*` call does exactly what the promise says, failures included. `FsLaws.dfy` proves
what follows for sequences of calls. Every call holds the library mutex throughout, so a call is one step.

The code does not protect the files behind open handles. The model keeps a set `live` of the handles
whose file is intact; unlinking and truncating drop exactly the handles they ruin, and reading or writing
is asked for live handles only. `FsStaleHandles.dfy` shows what comes of using the others.

**The broker** (`mbroker/mbroker.c`). `BrokerModel.dfy` is a transition system. Each session is a program
counter with what its thread holds, and an event is one step of one thread: a `tfs_*` call, or a region
under the table's mutex or a box's mutex. Registering is finding the box and then raising its counter;
creating is finding no box, opening, closing and adding; removing is finding the box, checking its counters,
unlinking its file and dropping it; the steps of other threads may come in between. What arrives on a pipe,
and whether a write to a pipe succeeds, is arbitrary. `BrokerSafety.dfy` proves that the steps `Admits` lets
through keep the invariant; `BrokerTheorems.dfy` states what holds in every state that such steps reach;
`BrokerRaces.dfy` shows that exactly these steps are safe, and what the others lead to; `BrokerAtomic.dfy`
that `Admits` never turns away a run in which registering, creating and removing are each done in one go;
`BrokerDelivery.dfy` that messages do get through, from the start and from every state; `BrokerListing.dfy`
what a listing sends while other threads go on; `BrokerSteps.dfy` says case by case what a step does. The
counters of a box are upper bounds of its live sessions, not equal to them, because some error paths close
the file without unregistering and the broken-pipe path unregisters without closing. `MessageBroker.dfy` is
the code of each step over the file system object and the box table object, and ties each to its transition:
the object keeps the sequence of its steps as ghost state, so what is proved of every run holds of it.

**The queue** (`producer-consumer/producer-consumer.c`). `QueueModel.dfy` interleaves the three critical
sections of each operation for any number of threads; `ProducerConsumer.dfy` is the object, each of whose
sections takes the step of the model and adds to its history. `QueueSafety.dfy`, `QueueOrder.dfy` and
`QueueProgress.dfy` prove accounting, order and the absence of lost wakeups, the last for any number of
threads.

**The box table and the list protocol** (`mbroker/boxes.c`, `manager/manager.c`). `Boxes.dfy` is the
growable table with holes, `Wire.dfy` the bytes of responses and list records, `Listing.dfy` both ends of
the listing. `CStrings.dfy`, `Finite.dfy` and `Arithmetic.dfy` hold C strings and facts about finite sets and
remainders; `Sizes.dfy` shared sizes.

What the code does not exclude, each with the exact condition that does:

- Unlinking keeps the live handles valid exactly if none of them is on the file
  (`FsRefinement.UnlinkInvalidatesExactly`), truncating exactly if those on the file stand at 0
  (`FsRefinement.TruncationInvalidatesExactly`). Otherwise the old handle stands on the next file that is
  created, or the next read asks for almost 2^64 bytes. Both are reached from every new file system with two inodes, two
  blocks and two handles or more, the broker's among them (`FsStaleHandles.StaleWriteArises`,
  `FsStaleHandles.TruncatedReadArises`).
- `tfs_write` stays within the block exactly if offset and length together fit in a `size_t`
  (`FsState.WriteClipsExactly`).
- After a step of the broker the removals under way can go on in any order without taking a box, a file or a handle from
  a live session exactly if the step found its box still in the table when it used it, did not register with a box between
  a manager's check and its `box_remove`, and added a box only where there is none of its name and its file is still there
  (`BrokerRaces.StepSoundExactly`). The code drops its locks in between, so other steps do occur
  (`BrokerRaces.RaceArises`): a client that registers inside a removal is left with a freed box while the manager is
  told 0 (`BrokerRaces.RegistrationRaceLosesBox`).
- After a step of the queue every order of the accesses to come is sound exactly if the check it passes, if any, finds an
  element or a free slot that no other thread past its check counts on (`QueueOrder.StepFifoExactly`,
  `QueueOrder.RunFifoExactly`); an unsound access delivers out of turn or overwrites what was not taken
  (`QueueOrder.UnsoundAccessBreaks`). The broker gives the queue several consumers, and with any capacity two of them can
  pass the check on one element (`QueueOrder.TwoConsumersTakeOneElement`).
- The manager client's list ends exactly if the table's top slot is occupied
  (`Listing.ListingUnderstoodExactly`); `box_remove` lowers the size by at most one, and `Listing.TopHole` builds
  a table for which the client waits for ever.
- A manager's request gets a return code once it is over, unless it was to remove a box that was found in use
  (`BrokerTheorems.ManagersAnswerExactly`).

`clear_dir_entry` compares names without looking at inode numbers. It selects the entry that `find_in_dir`
found if and only if no free entry before it carries the name (`FsState.ClearedSlotIsFoundSlot`), and the
code always meets that: entries are handed out first-fit and cleared when freed.

## Model

| member | source | states |
|---|---|---|
| `FsRefinement.OpenRefines` | fs/operations.c:79-161 | tfs_open has the specified effect and result for every path and mode; a bad path, and a missing file without TFS_O_CREAT, are refused with no table changed |
| `FsRefinement.WriteRefines` | fs/operations.c:186-243 | tfs_write through a closed or live handle keeps the invariant and splices exactly the bytes that fit into the file at the handle's position, or fails for lack of a first block |
| `FsRefinement.ReadRefines` | fs/operations.c:245-284 | tfs_read delivers exactly the bytes from the handle's position on and moves only that handle |
| `FsRefinement.UnlinkRefines` | fs/operations.c:286-328 | tfs_unlink removes exactly the named file and makes exactly its handles stale |
| `FsSteps.CloseRefines` | fs/operations.c:163-184 | tfs_close frees exactly the given open handle; any other number, a handle closed before included, fails and changes nothing |
| `FsRefinement.InitResult` | fs/operations.c:25-44 | tfs_init succeeds if and only if there is an inode and a block for the root |
| `FsRefinement.InitInvariant` | fs/state.c:198-233 | after a successful tfs_init the invariant holds, whatever the memory of the tables and of the directory held |
| `FsRefinement.InitIsEmpty` | fs/operations.c:25-44 | an initialised file system is sound and has no files and no handles |
| `FsRefinement.UnlinkInvalidatesExactly` | fs/state.c:252-267 | unlinking always keeps ownership; a set of live handles stays valid if and only if none of them is on the unlinked file |
| `FsRefinement.TruncationInvalidatesExactly` | fs/operations.c:105-111 | truncation always keeps ownership; a set of live handles stays valid if and only if those on the file stand at offset 0 |
| `FsStaleHandles.StaleHandleReachesNewFile` | fs/state.c:162-179 | after opening a, unlinking a and creating b, if a's inode was the lowest free one, a's handle stands at the start of b |
| `FsStaleHandles.StaleHandleWritesToNewFile` | fs/operations.c:200-236 | in that situation, if the creation of b returned a handle, what is then written through a's handle is the content of b, cut to a block, whenever tfs_write returns a length above 0 |
| `FsStaleHandles.StaleWriteArises` | fs/operations.c:186-236 | from every new file system with two inodes, blocks and handles: a opened with handle 0, a unlinked, b created with handle 1; a write through handle 0 returns its length, cut to a block, and is then the content of b |
| `FsStaleHandles.TruncatedReadArises` | fs/operations.c:264-267 | from every such file system: a opened, something written, a opened with TFS_O_TRUNC; the subtraction of the next tfs_read through the first handle gives 2^64 less what was written, more than a block |
| `FsStaleHandles.FirstFileStandsLowest` | fs/operations.c:118-151 | the situation arises with the first file of every new file system |
| `FsStaleHandles.TruncatedReadWraps` | fs/operations.c:264-267 | after truncation under a handle behind the start, the subtraction of its next tfs_read wraps to more than a block |
| `FsRefinement.WriteTouchesOnlyItsFile` | fs/operations.c:225-236 | a write changes no directory entry, no other file's content, no other handle, and no byte of a block that is not the file's own |
| `FsRefinement.FailedCreation` | fs/operations.c:118-138 | a creation without inode, directory slot or storable name leaves every allocation map, the directory and the abstract state as they were |
| `FsRefinement.SuccessfulCreation` | fs/operations.c:118-156 | a creation that has its inode, slot and name adds exactly one empty file, and a handle unless the handle table is full |
| `FsRefinement.CreateCloseUnlinkRestoresTables` | fs/operations.c:118-138 | creating, closing and unlinking a file gives back its inode, block count, directory slot and handle |
| `FsAbstraction.TablesCountFiles` | fs/state.c:410-438 | taken inodes are the files and the root, taken blocks the non-empty files and the root, used slots the files, counted exactly |
| `FsAbstraction.AbsConsistent` | fs/operations.c:204-236 | under the table invariant every live handle stands within its file and every file within a block; the capacities hold |
| `FsAbstraction.LookupFinds` | fs/operations.c:68-77 | the lookup finds an inode if and only if the file exists, and the right one |
| `FsState.StoredNameIsFound` | fs/state.c:349-357 | a name of 1 to 39 characters stored by strncpy reads back as itself and is matched by strncmp over 40 bytes if and only if the strings are equal |
| `FsState.FoundSlot` | fs/state.c:375-400 | find_in_dir finds the one used entry of a name, and no name longer than 39 characters |
| `FsState.ClearedSlotIsFoundSlot` | fs/state.c:297-316 | wherever strcmp stays inside the entries, clear_dir_entry selects the entry find_in_dir found if and only if no free entry before it carries that name |
| `FsState.SameSlot` | fs/operations.c:303-314 | under the invariant clear_dir_entry always selects the entry find_in_dir found, so tfs_unlink clears the entry of the inode it deleted |
| `FsState.WriteClipsExactly` | fs/operations.c:204-208 | tfs_write clips its length to the rest of the block if and only if offset and length together stay below 2^64 |
| `FsRefinement.LiveNeverWraps` | fs/operations.c:204-267 | in every invariant state a live handle stands within its file and the file within a block, so neither the subtraction of tfs_read nor the clipping of tfs_write wraps |
| `CStrings.StrNCmpDecidesEquality` | fs/state.c:391-397 | strncmp over a 40-byte field that holds a terminator is equality of the strings |
| `CStrings.StrCmpDecidesEquality` | fs/state.c:308-314 | strcmp of a field and a name is equality of the strings wherever it stays inside the field |
| `FsLaws.WriteFailsExactly` | fs/operations.c:210-223 | a write fails if and only if it needs a first block and every block is taken; otherwise it stores what fits |
| `FsLaws.EnoughBlocksNeverFail` | fs/operations.c:210-223 | with at least as many blocks as inodes no write fails |
| `FsLaws.CreateFailsExactly` | fs/operations.c:118-151 | creating a file fails if and only if the inodes, the directory or the handles are used up or the name is too long |
| `FsLaws.CreateCloseUnlinkRestores` | fs/operations.c:118-138 | creating, closing and unlinking a file restores the whole abstract state |
| `FsLaws.WriteAllAppends` | fs/operations.c:186-243 | any list of chunks written at the end of a file stores the first BLOCK_SIZE bytes of content and chunks together, and changes nothing else |
| `FsLaws.ReadToEndReads` | fs/operations.c:245-284 | reads of any positive lengths, repeated until one returns 0, end and deliver exactly the rest of the file |
| `FsLaws.WriteReadRoundTrip` | fs/operations.c:186-284 | what is written to an empty file in any chunks is read back through another handle in any portions, up to BLOCK_SIZE bytes |
| `FsLaws.BadPathsRefused` | fs/operations.c:53-55 | a path that is NULL, shorter than two characters or without the slash opens and unlinks nothing |
| `FsLaws.OpenMissing` | fs/operations.c:118-151 | a missing file is made only with TFS_O_CREAT, whatever the other flags, and exactly where an inode, a directory slot and a short enough name allow it; otherwise -1 and nothing changes |
| `FsLaws.OpenThere` | fs/operations.c:96-117 | an existing file is opened whatever TFS_O_CREAT says; truncation empties it and takes it from the handles behind its start and no others; the lowest free handle stands at 0, or with TFS_O_APPEND at what is then the end |
| `FsLaws.CloseMeans` | fs/operations.c:163-184 | an open handle is given back and nothing else changes; any other number fails, so a second close fails |
| `FsLaws.WriteMeans` | fs/operations.c:186-243 | a write that does not fail replaces the bytes at the handle's position by those that fit, keeps every byte before and behind them and every other file and handle |
| `FsLaws.ReadMeans` | fs/operations.c:245-284 | a read delivers the bytes from the handle's position on, as many as are asked for and there, and moves that handle alone |
| `FsLaws.UnlinkMeans` | fs/operations.c:286-328 | a name that is not there fails; otherwise its file goes, its handles become stale and the others stay |
| `FileSystem.Tfs.StateInit` | fs/state.c:95-128 | all three allocation maps are free; nothing else is known of the memory |
| `FileSystem.Tfs.Init` | fs/operations.c:25-44 | the arrays after tfs_init; if it succeeds they satisfy the invariant and hold no files |
| `FileSystem.Tfs.Open` | fs/operations.c:79-161 | the in-place tfs_open keeps the invariant; bad paths and missing files without TFS_O_CREAT give -1 and the same view; files, handles and result of every other case are said outright |
| `FileSystem.Tfs.Close` | fs/operations.c:163-184 | the in-place tfs_close keeps the invariant; it gives back exactly an open handle and returns 0, and returns -1 with the same view for every other number |
| `FileSystem.Tfs.Write` | fs/operations.c:186-243 | the in-place tfs_write keeps the invariant; a number that is no handle fails, and what is stored replaces exactly the bytes at the handle's position |
| `FileSystem.Tfs.Read` | fs/operations.c:245-284 | the in-place tfs_read keeps the invariant; a number that is no handle fails, and otherwise the bytes from the handle's position on are delivered |
| `FileSystem.Tfs.Unlink` | fs/operations.c:286-328 | the in-place tfs_unlink keeps the invariant; bad paths and missing names give -1 and the same view, otherwise the file goes and its handles become stale |
| `FileSystem.Tfs.Lookup` | fs/operations.c:68-77 | the scan returns the inode of the first used entry of that name, or -1, as it does for every bad path |
| `FileSystem.Tfs.InodeAlloc` | fs/state.c:162-179 | the loop takes the first free inode and changes nothing else |
| `FileSystem.Tfs.InodeCreateFile` | fs/state.c:198-244 | a regular file gets the first free inode, size 0 and no block |
| `FileSystem.Tfs.InodeCreateDirectory` | fs/state.c:198-244 | a directory gets an inode and a block with every entry number -1, or both are given back |
| `FileSystem.Tfs.InodeDelete` | fs/state.c:252-267 | the inode and the block of a non-empty file are freed, nothing else |
| `FileSystem.Tfs.DataBlockAlloc` | fs/state.c:410-423 | the loop takes the first free block |
| `FileSystem.Tfs.AddDirEntry` | fs/state.c:333-360 | the first free entry gets the name and number; bad names and a full directory change nothing |
| `FileSystem.Tfs.FindInDir` | fs/state.c:375-400 | the scan returns the number of the first used entry of that name |
| `FileSystem.Tfs.ClearDirEntry` | fs/state.c:297-316 | the scan clears the first entry of that name, used or not, for every name on which strcmp stays inside the entries |
| `FileSystem.Tfs.AddToOpenFileTable` | fs/state.c:468-480 | the loop takes the first free handle and sets its inode and offset |
| `FileSystem.CopyIntoBlock` | fs/operations.c:225-229 | a copy at an offset inside one block of the flat data array is a copy into that block and leaves every other block alone |
| `BrokerRaces.StepSoundExactly` | mbroker/mbroker.c:64-204 | after a step the removals past their check can go on in every order without a live session losing its box, its file or its handle, a box its file, or anyone using a freed box or adding a second box of a name, if and only if the step is admitted; so exactly the admitted steps keep the invariant |
| `BrokerSafety.StepKeepsInv` | mbroker/mbroker.c:317-495 | every admitted step of every session keeps the invariant, with steps of others between a thread's lock regions |
| `BrokerTheorems.Run` | mbroker/mbroker.c:497-554 | the invariant holds in the state after any sequence of admitted events |
| `BrokerTheorems.DeliveredIsPrefix` | mbroker/mbroker.c:451-494 | after any admitted events, what a subscriber has delivered is a prefix of the first hundred messages its box accepted, whole and in order |
| `BrokerTheorems.HistoryGrows` | mbroker/mbroker.c:376-391 | no step takes a message back from a box's history |
| `BrokerDelivery.DeliveryArises` | mbroker/mbroker.c:497-524 | for every box name that is not empty and every list of messages: after the steps that create the box, publish the list with packets of code 9, and start and serve a subscriber, each of them admitted, the subscriber has exactly the list, up to its first hundred messages |
| `BrokerDelivery.SubscriberCatchesUp` | mbroker/mbroker.c:451-494 | in every state that admitted steps reach, a subscriber that waits can go on by its own steps until it has all its box took |
| `BrokerDelivery.SubscriberComes` | mbroker/mbroker.c:422-444 | a client that asks to subscribe to a box that is not on its way out, while a handle is left, ends at the start of its file with the counter raised by one |
| `BrokerDelivery.PublisherComes` | mbroker/mbroker.c:317-351 | a client that asks to publish to such a box without a publisher ends as its publisher |
| `BrokerDelivery.PublisherIsHeard` | mbroker/mbroker.c:353-395 | whatever a publisher sends with code 9 is added to the history of its box in order, and to no other |
| `BrokerSteps.OthersStay` | mbroker/mbroker.c:497-554 | a step moves no session but its own |
| `BrokerSteps.SentKept` | mbroker/mbroker.c:353-395 | only a packet that is received adds to what was sent, and only a new box starts a history |
| `BrokerTheorems.LiveSessionsAreCounted` | mbroker/boxes.c:179-223 | after any admitted events, a box's live publishers are at most pub_num, which is at most 1, its live subscribers at most sub_num, and a live session's box is there, is not being removed and has its file |
| `BrokerTheorems.RemovalIsSafe` | mbroker/mbroker.c:179-191 | after any admitted events, neither the tfs_unlink nor the box_remove of a removal takes a box or a handle from a session that may still use it; a registration between the check and box_remove is not admitted |
| `BrokerRaces.RegistrationRaceLosesBox` | mbroker/mbroker.c:165-191 | a publisher or a subscriber that registers between a manager's check and its box_remove, before or after tfs_unlink, is left registered with a box that is gone, and the manager answers 0 (if its tfs_unlink is still to come: unless another manager has unlinked the file already) |
| `BrokerRaces.RegistrationRaceLosesHandle` | mbroker/mbroker.c:174-182 | if it opened the file before tfs_unlink, its handle has lost the file |
| `BrokerRaces.RaceArises` | mbroker/mbroker.c:165-174 | admitted events lead from the start to a manager past its check and a publisher that found the same box |
| `BrokerTheorems.PublisherAppends` | mbroker/mbroker.c:376-391 | a publisher's handle is always at the end of its file, and the size field plus what is not yet counted is the file's size, a multiple of 1024 |
| `BrokerTheorems.SizeAgrees` | mbroker/mbroker.c:387-395 | with nobody between write and count and the file not unlinked, the size field is the file's size and 1024 times the messages stored, also for a box created again |
| `BrokerTheorems.WritesNeverFail` | mbroker/mbroker.c:376-385 | with the broker's parameters a publisher's write stores its whole message, or nothing once there are a hundred |
| `BrokerTheorems.CreationFailsExactly` | mbroker/mbroker.c:104-108 | the tfs_open of a creation fails if and only if the name is empty, the handle table is full, or all inodes are taken and the file is not there yet |
| `BrokerTheorems.ManagersAnswerExactly` | mbroker/mbroker.c:64-204 | after any admitted events, a manager's session is at work or over, and over without an answer for its client if and only if one of its steps was the check of a removal that found a counter not 0 |
| `BrokerAtomic.AtomicRunsAreAdmitted` | mbroker/mbroker.c:64-204 | in every run in which each registration, creation and removal is done in one go, by any sessions and in any order, every step is admitted, and nobody is left inside an operation |
| `BrokerListing.ListedDuringRun` | mbroker/mbroker.c:241-271 | however the slots are read among the steps of other threads while the table's mutex is held: one record for each box, with the fields it had when its slot was read, and the client stops at the last if and only if the top slot is occupied |
| `BrokerListing.ReadBetween` | mbroker/mbroker.c:248-255 | the size announced of a box lies between its sizes when the listing begins and when it ends |
| `BrokerListing.HeldKeepsBoxes` | mbroker/mbroker.c:217-273 | while nobody takes the table's mutex the same boxes stay under the same names, and no size falls |
| `BrokerSafety.FlatSlice` | mbroker/mbroker.c:457-457 | message k is the k-th 1024 bytes of the box's file |
| `BrokerSafety.WriteShape` | mbroker/mbroker.c:376-376 | a publisher's write turns the file into the log with its message added, or leaves a full log as it is |
| `BrokerSafety.ReadShape` | mbroker/mbroker.c:457-457 | a subscriber's read gives the next message of the log, or 0 at its end |
| `BrokerSafety.OnlyPublisher` | mbroker/boxes.c:188-196 | two live publishers of one box are the same session |
| `BrokerSafety.RemovedIsUnused` | mbroker/mbroker.c:165-191 | no session is live on a box that is being removed |
| `MessageBroker.Mbroker.Start` | mbroker/mbroker.c:583-594 | a started broker is valid and stands for the initial state |
| `MessageBroker.Mbroker.HandleRequest` | mbroker/mbroker.c:497-554 | code 1 starts a publisher's session, 2 a subscriber's, 3 the creation and 5 the removal of the box named, with its search done; any other code changes nothing, and no other session moves |
| `MessageBroker.Mbroker.Arrive` | mbroker/mbroker.c:507-521 | a new session starts as the kind of client that asked |
| `MessageBroker.Mbroker.FindBox` | mbroker/boxes.c:180-182 | on the objects, box_find is the model's step; it returns null, and the session ends, if and only if the table has no box of that name |
| `MessageBroker.Mbroker.RaisePub` | mbroker/boxes.c:184-202 | on the objects, the box that was found gets its one publisher unless it has it, and the session is registered if and only if it does |
| `MessageBroker.Mbroker.OpenPub` | mbroker/mbroker.c:336-351 | on the objects, the box's file is opened at its end, unless all handles are in use |
| `MessageBroker.Mbroker.Receive` | mbroker/mbroker.c:353-385 | on the objects: a packet with code 9 is added to the box's history and to its file, up to a hundred, and counted; a lone 9 reads on; anything else leaves, and changes no file |
| `MessageBroker.Mbroker.UnregisterPub` | mbroker/mbroker.c:401-406 | at the end of the stream the counter falls from 1 to 0, with the file still open |
| `MessageBroker.Mbroker.Count` | mbroker/mbroker.c:386-395 | the box's size grows by what was written, and no other box changes |
| `MessageBroker.Mbroker.ClosePub` | mbroker/mbroker.c:408-411 | closing gives the handle back and ends the session |
| `MessageBroker.Mbroker.RaiseSub` | mbroker/boxes.c:211-222 | on the objects, the box that was found gets one more subscriber, and the session is registered |
| `MessageBroker.Mbroker.OpenSub` | mbroker/mbroker.c:431-444 | on the objects, the box's file is opened at its start, unless all handles are in use |
| `MessageBroker.Mbroker.ReadSub` | mbroker/mbroker.c:456-473 | on the objects, a read gives the next message the box took, or 0 if the subscriber has them all |
| `MessageBroker.Mbroker.Send` | mbroker/mbroker.c:475-493 | the session reads on if the message went through, unregisters if the pipe is broken, and closes on any other error |
| `MessageBroker.Mbroker.UnregisterSub` | mbroker/mbroker.c:475-482 | on a broken pipe the counter, which is not 0, falls by one, and the file stays open |
| `MessageBroker.Mbroker.CloseSub` | mbroker/mbroker.c:465-473 | a failed read or write closes the handle and leaves the counter |
| `MessageBroker.Mbroker.StartCreate` | mbroker/mbroker.c:84-99 | on the objects, a name is answered with -1 if and only if it has a box |
| `MessageBroker.Mbroker.CreateOpen` | mbroker/mbroker.c:104-108 | on the objects, the box's file is opened, made if it was not there; this fails exactly for an empty name, no handle or no inode, and is answered with -1 |
| `MessageBroker.Mbroker.CreateClose` | mbroker/mbroker.c:110-113 | on the objects, closing gives back the new file's handle and never fails |
| `MessageBroker.Mbroker.AddBox` | mbroker/mbroker.c:115-118 | on the objects, an admitted box_add adds an unused box under the name, and is answered with 0 |
| `MessageBroker.Mbroker.StartRemove` | mbroker/mbroker.c:154-158 | on the objects, a name is answered with -1 if and only if it has no box; otherwise the box found is the table's |
| `MessageBroker.Mbroker.CheckBox` | mbroker/mbroker.c:161-177 | on the objects, a box is in use if and only if one of its counters is not 0; then the client gets no answer |
| `MessageBroker.Mbroker.UnlinkBox` | mbroker/mbroker.c:179-182 | on the objects, the box's file goes; if it is not there, the client is answered with -1 |
| `MessageBroker.Mbroker.DropBox` | mbroker/mbroker.c:184-189 | on the objects, the table loses the name, and the answer is 0 if and only if it was there |
| `MessageBroker.Mbroker.TableIsLaidOut` | mbroker/boxes.c:126-154 | the slots up to the table's size hold the model's boxes, each in one slot |
| `MessageBroker.Mbroker.HasBoxes` | mbroker/mbroker.c:221-239 | num_elem is 0 if and only if the table holds no box |
| `MessageBroker.Mbroker.ListSlot` | mbroker/mbroker.c:242-261 | the record of a slot has the fields its box has at that step, and is flagged in the top slot only |
| `MessageBroker.Mbroker.SubscriberHasPrefix` | mbroker/mbroker.c:451-494 | on the objects, whatever steps they went through: what a subscriber has delivered is a prefix of the first hundred messages of its box |
| `MessageBroker.Mbroker.List` | mbroker/mbroker.c:206-280 | with no other thread in between, the records are those of the occupied slots in order, as many as there are boxes, each box announced with its name, size and counters; the client stops at the last one if and only if the top slot is occupied |
| `BrokerListing.CountersFit` | mbroker/mbroker.c:391-391 | in every invariant state size and pub_num fit their 64-bit fields |
| `QueueSafety.AlwaysAccounted` | producer-consumer/producer-consumer.c:37-77 | for any threads and interleaving, size is writes minus reads minus uncounted writes plus uncounted reads modulo 2^64, head and tail are writes and reads modulo capacity, and the slots hold the last writes |
| `QueueOrder.AccessIsSound` | producer-consumer/producer-consumer.c:44-69 | in a first-in first-out state a take returns the oldest element not taken and a store hits no element not taken |
| `QueueOrder.StepFifoExactly` | producer-consumer/producer-consumer.c:38-64 | after a step from a first-in first-out state every order of the accesses to come is sound if and only if the check it passes, if any, found an element or a free slot that nobody else counts on |
| `QueueOrder.RunFifoExactly` | producer-consumer/producer-consumer.c:37-77 | at every point of a run of any threads every order of the accesses to come is sound if and only if every check the run passes leaves such room; then what was taken is at every point a prefix of what was stored |
| `QueueOrder.UnsoundAccessBreaks` | producer-consumer/producer-consumer.c:45-67 | an access that is not sound makes what was taken no prefix of what was stored, or overwrites the oldest element not taken |
| `QueueOrder.OneEachIsFifo` | producer-consumer/producer-consumer.c:37-77 | if at most one producer and one consumer are ever past their checks, every run is first-in first-out |
| `QueueProgress.OneProducerOneConsumer` | producer-consumer/producer-consumer.c:37-77 | with one producer and one consumer thread every run is first-in first-out |
| `QueueProgress.AlwaysSleepsRightly` | producer-consumer/producer-consumer.c:49-52 | in every run of one producer and one consumer, an unsignalled sleeping producer means a full queue and an unsignalled sleeping consumer an empty one |
| `QueueProgress.NeverBothStuck` | producer-consumer/producer-consumer.c:38-64 | with one producer, one consumer and a positive capacity, one of the two can always take a step |
| `QueueProgress.NeverLeftBehind` | producer-consumer/producer-consumer.c:38-74 | in every run of any number of threads of fewer than 2^64 less the capacity steps: while a consumer sleeps unsignalled, at most as many elements are counted as consumers are signalled or past their check; while a producer does, at most as many slots are free as producers are |
| `QueueModel.CountPutSignals` | producer-consumer/producer-consumer.c:49-52 | each count signals one more sleeping consumer, if there is one |
| `QueueOrder.SafeExactlyWhenCovered` | producer-consumer/producer-consumer.c:44-69 | any order of the accesses of the threads past their checks is sound if and only if there is an element for each consumer and a slot for each producer among them |
| `QueueOrder.TwoConsumersTakeOneElement` | producer-consumer/producer-consumer.c:60-69 | from any state at rest, whatever the capacity, two consumers pass the check on one element, and the second delivers what was stored capacity places earlier, or memory never written |
| `ProducerConsumer.PcQueue.Create` | producer-consumer/producer-consumer.c:5-23 | the empty queue over arbitrary slots, accounted for and with no thread inside |
| `ProducerConsumer.PcQueue.Arrive` | producer-consumer/producer-consumer.c:37-58 | a thread that calls pcq_enqueue offers its element, one that calls pcq_dequeue wants one; no other thread moves |
| `ProducerConsumer.PcQueue.OneEachInOrder` | producer-consumer/producer-consumer.c:37-77 | on the object, whatever sections it went through: with at most one thread of each side past its check at a time, what was taken is a prefix of what was stored |
| `ProducerConsumer.PcQueue.EnqueueCheck` | producer-consumer/producer-consumer.c:38-42 | the thread goes on if and only if the size is not the capacity, and otherwise sleeps unsignalled; nothing else changes; while threads past their check have their element or slot, it passes if and only if writes less reads, as counted, are below the capacity |
| `ProducerConsumer.PcQueue.EnqueueAccess` | producer-consumer/producer-consumer.c:44-47 | the element goes into the slot at head, which moves on by one, behind everything stored before; no other slot or thread changes |
| `ProducerConsumer.PcQueue.EnqueueCount` | producer-consumer/producer-consumer.c:49-52 | the size grows by one; a consumer asleep and not signalled yet is signalled if there is any, whatever signals are pending, so their number falls by one; no other thread moves |
| `ProducerConsumer.PcQueue.DequeueCheck` | producer-consumer/producer-consumer.c:60-64 | the thread goes on if and only if the size is not 0, and otherwise sleeps unsignalled; under the same condition it passes if and only if writes less reads, as counted, are above 0 |
| `ProducerConsumer.PcQueue.DequeueAccess` | producer-consumer/producer-consumer.c:66-69 | the element in the slot at tail is returned and tail moves on by one; in a first-in first-out state it is the oldest element not taken |
| `ProducerConsumer.PcQueue.DequeueCount` | producer-consumer/producer-consumer.c:71-74 | the size falls by one, and a producer asleep and not signalled yet is signalled in the same way |
| `Boxes.BoxTable.Init` | mbroker/boxes.c:10-26 | eight empty slots |
| `Boxes.BoxTable.ExpandTable` | mbroker/boxes.c:43-54 | twice the capacity; every box keeps its slot and the new slots are empty |
| `Boxes.BoxTable.Add` | mbroker/boxes.c:69-124 | always succeeds: without holes the box goes behind the others and the size grows by one, otherwise into the first hole and the size stays; every other slot stays as it was, the capacity doubles exactly if every slot had been used, names stay distinct if and only if the name is new, and the map gets the new entry |
| `Boxes.BoxTable.Remove` | mbroker/boxes.c:126-154 | succeeds if and only if the name is there; the first such slot becomes a hole, the size falls by at most one, and the map loses the entry |
| `Boxes.BoxTable.Find` | mbroker/boxes.c:156-177 | the first box of that name, null if and only if there is none; where names are distinct, the map's box |
| `Boxes.BoxTable.RegisterPub` | mbroker/boxes.c:179-203 | fails if and only if there is no box of that name or the first one's pub_num is 1; otherwise raises that counter alone |
| `Boxes.BoxTable.RegisterSub` | mbroker/boxes.c:205-223 | fails if and only if there is no box of that name; otherwise raises the first one's counter alone |
| `Boxes.Box.RaisePub` | mbroker/boxes.c:184-202 | raises pub_num unless it is 1, so that a counter of at most 1 is 1 afterwards |
| `Boxes.Box.UnregisterPub` | mbroker/boxes.c:225-250 | lowers pub_num, or fails at 0; a counter of at most 1 is 0 afterwards |
| `Boxes.HoleExists` | mbroker/boxes.c:104-123 | a table with fewer boxes than used slots has a hole, so the panic after the scan is never reached |
| `Boxes.AddedWhere` | mbroker/boxes.c:93-123 | where box_add puts a box: behind the others, or in the first hole if there is one |
| `Boxes.EntriesAdded` | mbroker/boxes.c:93-116 | filling a hole keeps names distinct if and only if the name is new, and then extends the map by that entry |
| `Boxes.EntriesRemoved` | mbroker/boxes.c:131-146 | emptying a slot removes exactly its name from the map |
| `Boxes.EntriesExtended` | mbroker/boxes.c:43-54 | growing the table changes no name and no entry |
| `Listing.ListBoxes` | mbroker/mbroker.c:221-278 | the records written are those of the occupied slots in order, flagged at the top slot only, or the one empty record; each has 58 bytes and begins with 8 |
| `Listing.ReceiveList` | manager/manager.c:186-218 | the client's list holds the records up to the first flagged one in order, never outgrows its capacity, and blocks if and only if none is flagged |
| `Listing.ListingUnderstoodExactly` | mbroker/mbroker.c:241-271 | one record per box, each read back exactly; the client stops if and only if the top slot is occupied, and then at the last record |
| `Listing.StopsExactly` | manager/manager.c:193-218 | of the records sent for a table with a box, the client stops at the last if and only if the top slot is occupied, and at none otherwise |
| `Listing.WireIsTable` | mbroker/mbroker.c:241-271 | the records are as many as the boxes and each box is announced by one with its fields |
| `Listing.ListedAreTheBoxes` | mbroker/mbroker.c:241-255 | each box of the map is listed with its own fields, and nothing else is |
| `Listing.InfosInOrder` | mbroker/mbroker.c:241-271 | a box is listed after as many others as are in the slots before its own |
| `Listing.SentAreListRecords` | mbroker/mbroker.c:213-246 | every record has 58 bytes and begins with 8, the one for an empty table included |
| `Listing.EmptyListing` | mbroker/mbroker.c:221-239 | an empty table is one flagged record with an empty name |
| `Listing.TopHole` | mbroker/boxes.c:137-140 | three additions and two removals leave one box and a used top slot empty: one record is sent, and a client that receives it never stops |
| `Wire.GetResponse` | manager/manager.c:16-28 | rebuilding the code byte by byte in 32-bit arithmetic gives the int32_t of the four bytes; -1 is returned exactly for a negative one |
| `Wire.ResponseRoundTrip` | mbroker/mbroker.c:120-123 | the client decodes every return code the broker sends, negative ones included |
| `Wire.RecordRoundTrip` | mbroker/mbroker.c:252-255 | name, size and both counters are read back exactly from a list record |
| `Wire.RecordLayout` | mbroker/mbroker.c:243-255 | 8, the flag, the name padded to 32 bytes, then size, pub_num and sub_num in 8 bytes each |
| `Wire.ResponseLayout` | mbroker/mbroker.c:120-123 | the response type, then the four bytes of the code, lowest first, then the message |
| `Wire.ByteOf` | mbroker/mbroker.c:253-255 | byte k of an integer in memory is its digit of weight 256^k |
| `Wire.RequestRoundTrip` | manager/manager.c:47-57 | a request has 289 bytes: its code first, the client's pipe read back from byte 1 and the box from byte 257 |
| `Wire.PrintedIsTyped` | publisher/pub.c:23-31 | a line is published behind a 9 and delivered behind a 10, and the subscriber prints exactly what was typed, whatever lies behind its terminator |

## Left out

- `tfs_link`, `tfs_sym_link` and `tfs_copy_from_external_fs` are declared but have no definition in the repository.
- FsRefinement.WriteRefines: asks for a closed or live handle. Through the handle of an unlinked or truncated file tfs_write works on another file's inode or block, which no map of files describes; `FsStaleHandles` shows it and `BrokerTheorems.RemovalIsSafe` that admitted steps never do it. It also asks for a buffer of at most 2^63 - 1 bytes, the largest C object.
- FsRefinement.ReadRefines: asks for a closed or live handle, for the same reason.
- FileSystem.Tfs.Write: asks for a closed or live handle, for the same reason; the caller's buffer is a sequence of bytes.
- FileSystem.Tfs.Read: asks for a closed or live handle, for the same reason; the bytes put in the caller's buffer are returned.
- FileSystem.Tfs.ClearDirEntry: asks that strcmp stays inside each entry; a name of 40 or more characters compared with an entry without a terminator reads past it, which is undefined.
- FileSystem.Tfs.StateInit: the block of the root directory is a typed array of entries beside the flat data, not the raw bytes of block 0; failing allocations and a second state_init on a live file system are not modelled.
- Failures of mutex calls and of malloc, `insert_delay`, `state_destroy`, `box_table_destroy`, `pcq_destroy` and the shutdown of the broker.
- Named pipes, signals and the operating system's open, read and write: what they return is an arbitrary input of a step.
- BrokerSafety.StepKeepsInv: steps that are not admitted are not followed further. They use a box after it was freed, which is undefined, put two boxes of one name in the table, leave a box without its file, or register with a box on its way out. The code has nothing that prevents them; `BrokerRaces.StepSoundExactly` shows that each of them can lose something at once or with the next step of a removal, and `BrokerAtomic.AtomicRunsAreAdmitted` that none occurs where the operations are done in one go.
- BrokerTheorems.Run: follows admitted steps only, for that reason; so do the results about its states.
- BrokerTheorems.RemovalIsSafe: holds after admitted steps; `BrokerRaces.RegistrationRaceLosesBox` and `BrokerRaces.RegistrationRaceLosesHandle` are what the code allows besides.
- BrokerTheorems.PublisherAppends: holds after admitted steps, in which nobody unlinks a file under its publisher.
- BrokerTheorems.SizeAgrees: holds after admitted steps; it says nothing while a publisher is between its write and its count.
- BrokerTheorems.WritesNeverFail: holds after admitted steps, in which the publisher's handle keeps its file.
- MessageBroker.Mbroker.AddBox: asks for an admitted step, so that names stay distinct; `Boxes.BoxTable.Add` says what happens to a table with two boxes of one name.
- MessageBroker.Mbroker.RaisePub: asks for an admitted step: the pointer box_find returned must not have been freed meanwhile, nor the box be on its way out.
- MessageBroker.Mbroker.RaiseSub: asks for an admitted step, for the same reason.
- MessageBroker.Mbroker.CheckBox: asks for an admitted step: the pointer box_find returned must not have been freed meanwhile.
- BrokerModel.Session: requests name boxes by strings with a terminator within their 32 bytes, as the clients send them; malformed requests are not modelled.
- BrokerTheorems.LiveSessionsAreCounted: holds after admitted steps; sub_num is unbounded here; leaking it 2^64 times is not modelled. Counters left too high by error paths are in the model, and such a box can never be removed.
- BrokerDelivery.DeliveryArises: the broker and the clients can get there; that the scheduler lets them is not claimed.
- BrokerTheorems.DeliveredIsPrefix: holds after admitted steps, and is safety only; the publisher broadcasts without holding the box's mutex, so that a waiting subscriber is ever woken is not claimed.
- Which worker thread serves which request: sessions start at arbitrary moments, and the queue is verified by itself.
- QueueProgress.NeverLeftBehind: says who is on the way, not that the scheduler lets them run; nothing is said once the size field has wrapped.
- QueueProgress.NeverBothStuck: waking and fairness of the threads are the scheduler's; spurious wakeups are covered by the steps that check again.
- MessageBroker.Mbroker.List: is the listing with no other thread in between; the code holds the table's mutex throughout, but each box's fields may change until its slot is read, and `BrokerListing.ListedDuringRun` is about that. Both ask for sub_num below 2^64, which the field's type gives in the code. A listing that a failed write to the client's pipe cuts short is not modelled.
- BrokerListing.ListedDuringRun: holds in runs of admitted steps, and where the table is not empty when the listing begins; an empty one is `Listing.EmptyListing`.
- `manager_list_subs`, `expand_subs` and the `subs` array, which nothing in the repository completes; the manager's qsort and printing of the list; the argument and input handling of the publisher and subscriber programs.
- `box_t`'s mutex and condition variable have no state in the model beyond the steps they delimit.
