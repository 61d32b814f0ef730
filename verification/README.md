# bloomd in Dafny

A model of the parts of bloomd that are hard to get right, with proofs about them: the lock-free
filter manager, the adaptive radix tree, the Bloom filter stack with its files, the connection
buffers, and three pieces of support code (libev's timers and wakeups, the cycle barrier, streaming
SpookyHash). `dafny verify dfyconfig.toml` checks everything.

## What is modelled

**The filter manager** (`Mvcc*.dfy`, `FilterManager.dfy`). Clients look filters up in a primary tree
and in a list of updates that the tree does not have yet, without locks. One vacuum thread merges
updates into the other tree, swaps the trees, adds a barrier version, waits until every client has
checkpointed past it, merges again and only then frees. `Mvcc` is the protocol as a state machine:
reading a tree pointer, taking a filter from a tree, stepping along the update list, every
checkpoint, join and leave, every visit of a client by a scan and every phase of the vacuum is a step
of its own, and clients and the vacuum interleave freely. Every update ever made stays on record, so
that "the tree at version k" has a meaning; wrappers count how often they were released. `MvccLookup`
is one lookup access by access: the tree pointer, the search, the comparison of versions, the head of
the list and each node, with any steps of others in between.
`FilterManager.Manager` is the object with its lists and loops; each method is proved to take the
protocol steps it stands for.

**The adaptive radix tree** (`Art*.dfy`). Four node layouts that grow and shrink, compressed paths of
which only ten bytes are stored, optimistic skipping in search and delete and exact comparison in
insert. Bytes that search and delete read past the end of a key are arbitrary. Since every run
behaves like a finite map, the filter manager's trees are maps from names to wrappers.

**Bloom filters** (`Bitmap.dfy`, `BloomFilter.dfy`, `Scalable.dfy`, `Scaling.dfy`, `FileNames.dfy`,
`FilterStore.dfy`). Bits in bytes, page tracking, partitions, the list of growing filters, and a
filter's way to disk and back.

**Connections** (`Ring.dfy`, `Connection.dfy`). Circular buffers in arrays as byte queues; commands that
arrive in pieces, responses that the kernel takes in parts.

**Support code** (`Wakeup.dfy`, `TimerHeap.dfy`, `CycleBarrier.dfy`, `Spooky.dfy`); `Basics.dfy` holds what
several modules share.

What the kernel, the disk, the allocator and the clock do is a parameter of the operation concerned:
how many bytes a read or write takes, whether a bitmap can be made, the sorted listing of a
directory, the current time. Hash functions and sizing formulas are uninterpreted functions.

## Where the code falls short of its promise

Each of these is a theorem here, with an input that shows it and the exact condition under which the
promise holds.

- `circbuf_advance_read` wraps the read cursor, but `circbuf_write` can leave the write cursor at the
  end of the buffer. A drain goes wrong exactly if it takes everything while the write cursor stands
  there; the empty queue then looks like a full buffer (`Ring.CircBuf.AdvanceRead`,
  `Connection.Output.HandleWritebuf`, `Ring.DrainedAtTheEnd`).
- A lookup can miss a filter that is there all the time: it reads the pointer of the old tree, the trees
  are swapped, and the version that the walk of the list compares with is already the new one. A
  lookup that finds a filter is always right at some instant of it; one that finds none is right at
  some instant if and only if the tree that clients read when it answers does not have the name
  either, which holds whenever the trees are not swapped meanwhile (`MvccAnswers.FoundWasThere`,
  `MvccAnswers.MissingIffNotInTree`, `MvccAnswers.UnswappedIsRight`). A run in which a client misses a
  filter that it has created itself: `MvccRace.MissedRun`. The lookup that create makes has the same gap.
- A completed `ev_async_send` can be overlooked: its mark is not collected while the loop is blocked on
  an empty pipe. In every run this happens only while the flag is up and a call that overlapped it has
  raised the flag and not written the pipe; it never happens if calls do not overlap; and one more
  call made to a loop blocked on an empty pipe is overlooked if and only if the flag is up
  (`Wakeup.OverlookedNeedsOverlap`, `Wakeup.SerialCallsAreSeen`, `Wakeup.OverlookedIffFlagUp`). Two runs
  show it: one call finds the flag up, the other finds it down and meets a sender that is about to
  take back its skip (`Wakeup.OverlookedFlagUp`, `Wakeup.OverlookedFlagDown`).
- A Node16 places bytes by signed comparison, so iteration can be out of byte order: it is in order if
  and only if every small node is sorted (`ArtIter.SortedIffOrdered`), an insertion keeps a Node16 sorted
  if and only if the byte does not cross the sign boundary (`ArtOrder.Node16StaysSorted`), and keys with
  bytes below 128 never do (`ArtOrder.LowRunsIterateSorted`). Storing [1], [2], [3], [4] and [200] breaks the
  order (`ArtWitness.OutOfOrderRun`).
- `art_iter_prefix` never misses a key, but can visit keys without the prefix: it visits none if and
  only if, where it stops inside the path of a node, the prefix lies on that path
  (`ArtPrefix.OnlyPrefixedIff`). Two runs show the two ways to fail: a mismatch higher up that is not
  looked back at, and a comparison with the smallest leaf past the end of a path longer than ten
  bytes (`ArtWitness.SkippedByteRun`, `ArtWitness.OvershotRun`).
- `recursive_copy` loses children of a Node48 with holes: the copy answers every lookup like the tree if
  and only if no Node48 has holes (`ArtCopy.CopyFaithfulIff`). Inserting makes none
  (`ArtCopy.InsertOnlyCopies`); storing [1] to [17] and removing [1] makes one, and the copy has lost [17]
  (`ArtWitness.LostKeyRun`).
- The data files of a filter sort by number exactly up to 1000 of them (`FileNames.SortedUpToThousand`).
- The header of SpookyHash calls the outputs of `Final` "out only"; below 192 bytes they are read as
  seeds (`Spooky.PreloadMatters`).

## Model

| member | source | states |
|---|---|---|
| `Mvcc.InitKeepsInv` | src/bloomd/filter_manager.c:149-195 | the state after start-up, both trees equal to what was loaded, satisfies the protocol invariant |
| `MvccInvariant.StepKeepsInv` | src/bloomd/filter_manager.c:1050-1133 | every step of every client and of the vacuum keeps the invariant |
| `MvccInvariant.MergeStep` | src/bloomd/filter_manager.c:888-908 | applying the next update takes a tree from the contents of version k to those of k+1 |
| `MvccInvariant.BarriersChangeNothing` | src/bloomd/filter_manager.c:900-907 | trees at two versions with only barriers between them have the same contents |
| `MvccInvariant.OldWrappersReleased` | src/bloomd/filter_manager.c:400-437 | if create finds no filter and no pending delete of a name, every earlier wrapper of it has been released |
| `MvccTheorems.ReachIsNeverReleased` | src/bloomd/filter_manager.c:960-1040 | in every run, no list node and no wrapper that a client can still reach inside an operation has been released |
| `MvccTheorems.TreesInUseAreNeverWritten` | src/bloomd/filter_manager.c:888-908 | in every run, no step writes a tree whose pointer some client inside an operation holds |
| `MvccAnswers.AloneFinds` | src/bloomd/filter_manager.c:630-656 | in every run, a client inside an operation can make all accesses of a lookup by its own steps, answers what the one-instant lookup says, and then holds exactly the filter it found besides what it held, and the pointer of the tree that clients read |
| `MvccAnswers.WalkPassesAll` | src/bloomd/filter_manager.c:640-652 | in every run, the walk of the list stands at the update of each version that the tree lacks, newest first, and stops after the first of them |
| `MvccAnswers.FoundWasThere` | src/bloomd/filter_manager.c:630-656 | for every interleaving of a lookup with others, the filter it finds is the one that a lookup in one go finds at some instant of it |
| `MvccAnswers.MissingIffNotInTree` | src/bloomd/filter_manager.c:630-656 | for every interleaving, a lookup that finds nothing is right at some instant if and only if the tree that clients read when it answers does not have the name |
| `MvccAnswers.UnswappedIsRight` | src/bloomd/filter_manager.c:630-656 | for every interleaving without a swap of the trees, the answer is that of some instant |
| `MvccRace.MissedRun` | src/bloomd/filter_manager.c:630-656 | a run and a lookup that finds nothing although a lookup in one go would have found the filter at every instant |
| `MvccEffects.CreateShows` | src/bloomd/filter_manager.c:400-437 | in every run, a created filter is found at once as a new one and no other name is affected |
| `MvccEffects.RemoveHides` | src/bloomd/filter_manager.c:445-464 | in every run, a removed filter is no longer found, its wrapper says whether its files go, and no other name is affected |
| `MvccEffects.AnyoneCanBegin` | src/bloomd/filter_manager.c:248-276 | from every reachable state, a thread can come to be inside an operation by its own steps with everything else as it is; a newcomer reports the current version |
| `MvccEffects.AnyoneCanReport` | src/bloomd/filter_manager.c:248-276 | from every reachable state, a client can end its operation and then reports the current version |
| `MvccTheorems.StartsFromLoaded` | src/bloomd/filter_manager.c:840-863 | in every run, what the state after the run records as loaded is the tree of the start |
| `MvccTheorems.PrimaryIsReplay` | src/bloomd/filter_manager.c:1099-1122 | in every run the primary tree is the replay of all updates up to its version, the other tree the replay up to its own, and between merges the two agree |
| `MvccTheorems.FindFindsVisible` | src/bloomd/filter_manager.c:630-656 | a wrapper that is current, or deleted but not yet out of the tree and list, is what a lookup of its name finds |
| `MvccTheorems.TakeIsCurrent` | src/bloomd/filter_manager.c:659-662 | in every run, tree-then-list lookup of active filters equals lookup in the replay of the full history |
| `MvccLifecycle.ListingInRuns` | src/bloomd/filter_manager.c:540-574 | in every run, a listing names, each once, exactly the names live in the full history that have the prefix or were visited by the walk of the tree; it is free of others exactly if the walk visits no other live name |
| `MvccLifecycle.OneWrapperPerName` | src/bloomd/filter_manager.c:995-1009 | in every run, no wrapper is released twice and of two wrappers of one name at most one is unreleased |
| `MvccLifecycle.MissingIffBuried` | src/bloomd/filter_manager.c:630-656 | a lookup finds nothing exactly if every wrapper of the name died at or below the version of the primary tree |
| `MvccLifecycle.CreateWaitsForRelease` | src/bloomd/filter_manager.c:400-437 | in every run, if the lookup of create finds nothing and its later scan of pending deletes finds nothing either, the vacuum going on in between, then every earlier wrapper of the name has been released once and the create step is enabled |
| `MvccPending.PendingInRuns` | src/bloomd/filter_manager.c:913-954 | in every run, the pending list holds exactly the names deleted by the updates of the round from marking to the end of the round, and is empty at all other times |
| `MvccPending.BuriedCanBeCreated` | src/bloomd/filter_manager.c:400-437 | in every run, outside the marked part of a round a name can be created if and only if every earlier filter of it has died and been merged |
| `MvccLifecycle.ShutdownReleasesRest` | src/bloomd/filter_manager.c:202-220 | at shutdown between rounds, the tree and the listed creations together release every remaining wrapper exactly once |
| `MvccConvergence.PrimaryNeverDecreases` | src/bloomd/filter_manager.c:960-965 | no step lowers the version of the primary tree |
| `MvccConvergence.TwoRoundsSuffice` | src/bloomd/filter_manager.c:1054-1122 | once updates stop, the vacuum begins at most two more rounds, and at rest after the second the primary tree has every version, at the latest with the catch-up step (1068-1086) |
| `MvccLiveness.ConvergenceIsReached` | src/bloomd/filter_manager.c:1050-1133 | from every reachable state, in every run without updates: at most two rounds and one catch-up, never stuck before all is merged, and at most 9n + 9 vsn + 64 vacuum steps not spent waiting for one of n clients until it is |
| `MvccLiveness.PromptClientsConverge` | src/bloomd/filter_manager.c:1028-1047 | if in addition no vacuum step finds a client behind the barrier, the bound holds for all vacuum steps |
| `MvccLiveness.WaitingMeansLagging` | src/bloomd/filter_manager.c:1044-1046 | the vacuum waits exactly while some client has not reported the barrier |
| `MvccLiveness.LaggingShrinks` | src/bloomd/filter_manager.c:248-276 | during a wait nobody starts to lag behind the barrier, and a checkpoint or leaving ends it for the caller |
| `MvccConvergence.VacuumMakesProgress` | src/bloomd/filter_manager.c:1050-1133 | every vacuum step except starting a round and polling again strictly decreases a rank |
| `MvccConvergence.VacuumNeverStuck` | src/bloomd/filter_manager.c:1050-1133 | unless everything is merged, some vacuum step is enabled |
| `FilterManager.Manager.constructor` | src/bloomd/filter_manager.c:149-195 | start-up puts exactly the filters that are found and load into the tree, gives the other tree the same contents (see `ArtCopy.InsertOnlyCopies`) and yields an initial state of the protocol |
| `FilterManager.LoadExisting` | src/bloomd/filter_manager.c:840-863 | the loop maps each found name that loads to its own filter, and no other name |
| `FilterManager.Manager.FindFilter` | src/bloomd/filter_manager.c:630-656 | the tree search and the walk down the list return the protocol's lookup |
| `FilterManager.Manager.TakeFilter` | src/bloomd/filter_manager.c:659-662 | the same for active filters only |
| `FilterManager.Manager.CreateDelta` | src/bloomd/filter_manager.c:874-882 | the new update is at the head of the list under the next version |
| `FilterManager.Manager.CreateFilter` | src/bloomd/filter_manager.c:400-437 | exactly when each of 0, -1, -2 and -3 is returned, and that only 0 changes the state, by the protocol's create step |
| `FilterManager.Manager.DropFilter` | src/bloomd/filter_manager.c:445-464 | 0 exactly for an active filter, which is then retired with its files by the protocol's remove step |
| `FilterManager.Manager.ClearFilter` | src/bloomd/filter_manager.c:473-499 | exactly when each of 0, -1 and -2 is returned; only a proxied active filter is retired, without its files |
| `FilterManager.Manager.ListFilters` | src/bloomd/filter_manager.c:540-574 | the loops, with or without a prefix, return the listing whose exactness in every run is `MvccLifecycle.ListingInRuns` |
| `FilterManager.Manager.Checkpoint` | src/bloomd/filter_manager.c:248-276 | the search of the client list ends in the protocol's checkpoint or join step, after which the caller is listed with the current version and nothing else has changed |
| `FilterManager.Manager.Leave` | src/bloomd/filter_manager.c:284-308 | exactly the caller's entry is unlinked, if it has one |
| `FilterManager.Manager.ClientMinVsn` | src/bloomd/filter_manager.c:1015-1023 | the result is a lower bound of all client versions and is attained |
| `FilterManager.MergeList` | src/bloomd/filter_manager.c:888-908 | the recursion applies the listed updates up to m, oldest first, and nothing else |
| `FilterManager.Manager.MergeOldVersions` | src/bloomd/filter_manager.c:888-908 | a whole merge is a run of protocol merge steps and touches only the other tree |
| `FilterManager.CollectDeletes` | src/bloomd/filter_manager.c:913-931 | the loop collects exactly the names deleted by listed updates up to m |
| `FilterManager.Manager.MarkPendingDeletes` | src/bloomd/filter_manager.c:913-931 | the pending list becomes that of the protocol's mark step |
| `FilterManager.Manager.ClearPendingDeletes` | src/bloomd/filter_manager.c:936-954 | the pending list is empty after the protocol's last step of a round |
| `FilterManager.Manager.SwapFilterMaps` | src/bloomd/filter_manager.c:960-965 | trees and version are exchanged by the protocol's swap step |
| `FilterManager.Manager.AnnounceBarrier` | src/bloomd/filter_manager.c:1031-1035 | the barrier takes the next version by the protocol's barrier step |
| `FilterManager.FindCut` | src/bloomd/filter_manager.c:976-987 | the list is cut exactly after the entries newer than m |
| `FilterManager.Manager.DeleteOldVersions` | src/bloomd/filter_manager.c:995-1009 | the cut list is what the protocol keeps, and each filter deleted in the cut part is released exactly once |
| `FilterManager.Manager.CatchUpBarrier` | src/bloomd/filter_manager.c:1068-1086 | the shortcut is taken exactly when the only missing update is a barrier |
| `ArtKids.AddChildOk` | src/bloomd/art.c:379-519 | in every layout and through every growth, adding gives exactly that child to its byte, keeps counts right and stays within layout bounds |
| `ArtKids.SetChildOk` | src/bloomd/art.c:134-215 | writing through the found pointer changes exactly that child |
| `ArtKids.RemoveChildOk` | src/bloomd/art.c:646-753 | in every layout and through every shrink, removing takes exactly that child away; only a Node4 can fall to one child |
| `Art.StoredIsUnder` | src/bloomd/art.c:257-286 | every stored key extends the path of each node it lies below |
| `Art.SearchIsGet` | src/bloomd/art.c:257-286 | skipping compressed bytes never changes the answer, whatever is read past the end of the key |
| `Art.MismatchExact` | src/bloomd/art.c:524-543 | the mismatch is exactly where the key leaves the node's path, also beyond the ten stored bytes |
| `Art.SplitLeafOk` | src/bloomd/art.c:553-578 | splitting a leaf yields a well-formed fork that adds exactly the new key |
| `Art.SplitInnerOk` | src/bloomd/art.c:580-613 | splitting a path yields a well-formed fork of the shortened node and the new leaf |
| `Art.InsertOk` | src/bloomd/art.c:545-628 | insert keeps the tree well-formed, stores the value, changes no other key and returns what the key held |
| `ArtDelete.JoinedPrefixOk` | src/bloomd/art.c:720-734 | the bytes stored on collapse are the first bytes of the joined path |
| `ArtDelete.CollapseOk` | src/bloomd/art.c:709-738 | collapsing a one-child node keeps path invariant and contents |
| `ArtDelete.UnlinkOk` | src/bloomd/art.c:740-753 | taking a leaf away removes exactly its key and keeps the tree well-formed |
| `ArtDelete.DeleteOk` | src/bloomd/art.c:755-795 | delete finds a key exactly if it is stored, returns its value and removes that key only |
| `ArtMap.InsertMatches` | src/bloomd/art.c:639-644 | insert on a whole tree matches a map update, size field included |
| `ArtMap.DeleteMatches` | src/bloomd/art.c:805-819 | delete on a whole tree matches a map removal, size field included |
| `ArtMap.SearchMatches` | src/bloomd/art.c:257-286 | search on a whole tree matches map lookup |
| `ArtMap.NulTerminated` | src/bloomd/filter_manager.c:630-634 | keys with their NUL appended are prefix-free |
| `ArtMap.RunsMatch` | src/bloomd/art.c:257-286 | for every sequence of inserts, searches and deletes of prefix-free keys, answers, contents and size are those of a map |
| `ArtMap.FreshRunsMatch` | src/bloomd/art.c:53-57 | the same from the empty tree |
| `ArtMap.ArtTree.Insert` | src/bloomd/art.c:639-644 | the object's contents are updated at the key, and the size grows exactly for a new key |
| `ArtMap.ArtTree.Delete` | src/bloomd/art.c:805-819 | the object's contents lose the key, whose value is returned |
| `ArtMap.ArtTree.Find` | src/bloomd/art.c:257-286 | the object's lookup is that of its contents |
| `ArtIter.EntriesExact` | src/bloomd/art.c:822-868 | iteration visits an entry exactly if the tree holds it |
| `ArtIter.EntriesChain` | src/bloomd/art.c:822-868 | no key is visited twice, and keys come in increasing order where nodes keep their children sorted |
| `ArtIter.SortedIffOrdered` | src/bloomd/art.c:822-868 | keys come in increasing byte order if and only if every node keeps its children sorted |
| `ArtIter.EntriesEnds` | src/bloomd/art.c:289-338 | minimum is visited first and maximum last |
| `ArtOrder.Node16StaysSorted` | src/bloomd/art.c:406-472 | exactly when a signed-compare insertion leaves a Node16 sorted |
| `ArtOrder.HighByteBreaksOrder` | src/bloomd/art.c:406-472 | four children and one above byte 128 come out of order |
| `ArtWitness.OutOfOrderRun` | src/bloomd/art.c:406-472 | a run of inserts from the empty tree after which iteration is not in byte order |
| `ArtOrder.InsertLow` | src/bloomd/art.c:545-628 | inserting keys with bytes below 128 keeps every node sorted |
| `ArtOrder.DeleteLow` | src/bloomd/art.c:755-795 | deleting keeps every node sorted |
| `ArtOrder.IterationIsTheMap` | src/bloomd/art.c:880-882 | iteration of a tree that stands for a map visits its entries, each key once |
| `ArtOrder.LowRunsIterateSorted` | src/bloomd/art.c:822-868 | after every run with bytes below 128, iteration gives the map's entries in strictly increasing order, minimum first, maximum last |
| `ArtPrefix.PrefixComplete` | src/bloomd/art.c:908-955 | prefix iteration misses no stored key with the prefix |
| `ArtPrefix.PrefixSound` | src/bloomd/art.c:908-955 | prefix iteration visits only stored entries, none twice |
| `ArtPrefix.PrefixIteration` | src/bloomd/art.c:908-955 | both, for whole trees that stand for a map, and that only keys with the prefix are visited exactly if the walk stops clean |
| `ArtPrefix.AllHaveIff` | src/bloomd/art.c:935-947 | all entries below an inner node have the prefix if and only if the path of the node has it |
| `ArtPrefix.OnlyPrefixedIff` | src/bloomd/art.c:908-955 | prefix iteration visits only keys with the prefix if and only if, where it stops inside a compressed path, the prefix lies on that path |
| `ArtWitness.SkippedByteRun` | src/bloomd/art.c:935-947 | a run of inserts that reaches the tree of `ArtPrefix.ExtraKeyVisited` |
| `ArtWitness.OvershotRun` | src/bloomd/art.c:524-543 | a run of inserts and a prefix for which the comparison passes the end of an eleven-byte path and a key without the prefix is visited |
| `ArtPrefix.ExtraKeyVisited` | src/bloomd/art.c:935-947 | a tree and a prefix for which a key without the prefix is visited |
| `ArtCopy.CopyRepresents` | src/bloomd/art.c:1028-1032 | the copy of a tree without Node48 holes is well-formed and stands for the same map |
| `ArtCopy.HolesLoseChildren` | src/bloomd/art.c:995-1002 | a Node48 is copied with all its children exactly if it has no holes |
| `ArtCopy.CopyLoses` | src/bloomd/art.c:995-1002 | in every tree with a hole in some Node48 there is a stored key that a search of the copy does not find |
| `ArtCopy.CopyFaithfulIff` | src/bloomd/art.c:958-1032 | the copy answers every lookup like the tree, and stands for the same map, if and only if no Node48 has holes |
| `ArtWitness.LostKeyRun` | src/bloomd/art.c:995-1002 | a run of inserts and one delete that leaves a tree whose copy has lost a stored key |
| `ArtCopy.InsertOnlyCopies` | src/bloomd/filter_manager.c:175-183 | a tree that was only inserted into is copied faithfully |
| `Wakeup.StepKeepsInv` | deps/libev/ev.c:1840-1933 | every step of every sender and of the loop keeps the wakeup invariant |
| `Wakeup.NoLostWakeup` | deps/libev/ev.c:2997-3058 | in every run, a loop blocked on an empty pipe with an uncollected mark implies a sender on its way to write the pipe |
| `Wakeup.ReturnedSendsWake` | deps/libev/ev.c:4281-4286 | in every run, once all calls have returned the loop is not blocked on an empty pipe with an uncollected mark |
| `Wakeup.WakeupIsNear` | deps/libev/ev.c:1840-1880 | in such a state at most six steps of one sender make the pipe readable |
| `Wakeup.LoopDelivers` | deps/libev/ev.c:1885-1933 | without senders, every loop step strictly brings an uncollected mark closer to collection |
| `Wakeup.OverlookedNeedsOverlap` | deps/libev/ev.c:1840-1880 | in every run, a returned call is uncollected with the loop blocked on an empty pipe only while the flag is up and a call that overlapped it has raised the flag and not written |
| `Wakeup.SerialCallsAreSeen` | deps/libev/ev.c:4281-4286 | in every run whose calls do not overlap there is no such state |
| `Wakeup.OverlookedIffFlagUp` | deps/libev/ev.c:1840-1862 | from every reachable state with the loop blocked on an empty pipe, one more call run to its end is overlooked if and only if the flag was up |
| `Wakeup.OverlookedFlagUp` | deps/libev/ev.c:1840-1862 | a run in which a call finds the flag up, returns and is overlooked |
| `Wakeup.OverlookedFlagDown` | deps/libev/ev.c:1862-1880 | a run in which a call finds the flag down, returns without writing and is overlooked, because an older sender takes back the skip it left |
| `CycleBarrier.StepKeepsInv` | src/bloomd/barrier.c:93-147 | every entry and every look at the bit keeps the barrier invariant |
| `CycleBarrier.BarrierHolds` | src/bloomd/barrier.c:93-147 | in every run of exactly threshold threads nobody leaves a round before all entered it, and exactly the thread that completed a round got -1 from it |
| `CycleBarrier.BitNeverAliases` | src/bloomd/barrier.c:129-133 | in every run the one-bit cycle lets a waiter go exactly if its round is complete |
| `CycleBarrier.EnterReturnsIff` | src/bloomd/barrier.c:104-117 | in every run, an entry counts, and returns at once with -1 if and only if all others are in the round |
| `CycleBarrier.LookReturnsIff` | src/bloomd/barrier.c:129-147 | in every run, a waiter returns with 0 if and only if its round is complete |
| `CycleBarrier.RoundsGoOn` | src/bloomd/barrier.c:93-147 | from every reachable state the threads can go on until every one has returned from the round that is not complete yet |
| `CycleBarrier.NeverStuck` | src/bloomd/barrier.c:93-147 | in every run some thread can enter or leave |
| `CycleBarrier.Barrier.constructor` | src/bloomd/barrier.c:33-49 | a new barrier for as many threads as its count is an initial state |
| `CycleBarrier.Barrier.Arrive` | src/bloomd/barrier.c:104-117 | the first critical section is the protocol's entry; it returns at once exactly if all others are in the round |
| `CycleBarrier.Barrier.MayLeave` | src/bloomd/barrier.c:129-133 | the test of the wait loop is the protocol's look at the bit and succeeds exactly if the round is complete |
| `Spooky.Hash128` | deps/spookyhash/spooky.cpp:123-183 | the block loop computes the reference digest |
| `Spooky.DigestMixes` | deps/spookyhash/spooky.cpp:140-183 | a long message is hashed by mixing in its blocks in order, the padded one last |
| `Spooky.BlocksDiffer` | deps/spookyhash/spooky.cpp:170-183 | different messages are mixed in as different blocks |
| `Spooky.SpookyHash.constructor` | deps/spookyhash/spooky.cpp:188-194 | a new state stands for the empty message under the seeds |
| `Spooky.SpookyHash.Update` | deps/spookyhash/spooky.cpp:198-298 | the state afterwards stands for the message with the piece appended, however the pieces fall |
| `Spooky.SpookyHash.Final` | deps/spookyhash/spooky.cpp:302-346 | from 192 bytes on the result is the digest under the seeds, below that the short hash under the old outputs; the state still stands for the message |
| `Spooky.HashPieces` | deps/spookyhash/spooky.h:98-105 | asking after every piece, with outputs preloaded, gives each time the one-call hash of the pieces so far |
| `Spooky.PreloadMatters` | deps/spookyhash/spooky.h:106-108 | a short message agrees with the one-call hash for every mixer exactly if the outputs held the seeds |
| `TimerHeap.RootIsLeast` | deps/libev/ev.c:2511-2523 | under the verified heap condition the root expires first |
| `TimerHeap.Timers.Upheap` | deps/libev/ev.c:1747-1766 | order, back-pointers and cached times hold again and the set of timers is kept |
| `TimerHeap.Timers.Downheap` | deps/libev/ev.c:1667-1708 | the same towards the leaves, with the least of up to four children |
| `TimerHeap.Timers.Adjust` | deps/libev/ev.c:1769-1776 | a timer whose time changed in either direction ends up in place |
| `TimerHeap.Timers.Reheap` | deps/libev/ev.c:1779-1788 | any arrangement becomes a heap of the same timers |
| `TimerHeap.Timers.Start` | deps/libev/ev.c:3262-3284 | the heap gains exactly the timer, at its time from now; an active timer is left alone |
| `TimerHeap.Timers.Stop` | deps/libev/ev.c:3286-3314 | the heap loses exactly the timer, whose value becomes what is left of its time |
| `TimerHeap.Timers.Again` | deps/libev/ev.c:3316-3341 | a repeating timer is rescheduled or started, another one stopped if it is active, with the times that result |
| `TimerHeap.Timers.Reify` | deps/libev/ev.c:2713-2748 | terminates, feeds every due timer exactly once and in the order of their times, leaves none due and none else changed |
| `Ring.CircBuf.Avail` | src/bloomd/networking.c:1024-1032 | the free space is the size less the contents less one |
| `Ring.CircBuf.Grow` | src/bloomd/networking.c:1035-1069 | the contents are kept in a buffer of eight times the size |
| `Ring.CircBuf.ReadVectors` | src/bloomd/networking.c:1073-1089 | the vectors lie in the buffer and offer exactly the free space |
| `Ring.CircBuf.Receive` | src/bloomd/networking.c:1108-1110 | what the vectors were filled with, followed by the cursor's advance, is appended to the contents |
| `Ring.CircBuf.WriteVectors` | src/bloomd/networking.c:1092-1105 | the vectors hand over exactly the contents, in order |
| `Ring.CircBuf.AdvanceRead` | src/bloomd/networking.c:1112-1120 | exactly when the queue survives, and that it then loses exactly the bytes taken |
| `Ring.CircBuf.Write` | src/bloomd/networking.c:1127-1156 | the bytes are appended, after as many growths as they need |
| `Ring.CircBuf.ExtractToTerminator` | src/bloomd/networking.c:866-944 | a line is found exactly if there is a terminator, ends at the first one and is followed by the remaining contents |
| `Ring.DrainedAtTheEnd` | src/bloomd/networking.c:1141-1143 | a sequence of writes and drains that leaves an empty queue looking like a full buffer |
| `Connection.Input.ReadClientData` | src/bloomd/networking.c:404-438 | for every partial read the bytes received are the lines taken followed by the contents; as many bytes are read as are there, are handed over and fit, and the buffer grows exactly if less than half of it is free |
| `Connection.Input.ExtractToTerminator` | src/bloomd/networking.c:866-944 | taking a line keeps that equation and takes up to the first terminator of what was not taken yet |
| `Connection.Output.SendBuffered` | src/bloomd/networking.c:784-792 | all buffers are queued in order |
| `Connection.LeftOff` | src/bloomd/networking.c:821-829 | the buffer at which a partial or refused write stopped, and the bytes before it |
| `Connection.Output.QueueRest` | src/bloomd/networking.c:831-840 | exactly the bytes the kernel did not take are queued |
| `Connection.Output.SendDirect` | src/bloomd/networking.c:795-848 | exactly the bytes that the kernel takes are sent, and those followed by the bytes queued are the responses, for every partial or refused write |
| `Connection.Output.SendResponse` | src/bloomd/networking.c:761-781 | the same over all chunks: what is sent is the whole chunks and then the part of one that the kernel takes; a connection that fails is deactivated |
| `Connection.WireIsPrefix` | src/bloomd/networking.c:761-781 | what goes over the wire is the start of the response, and all of it if every write takes all it is given |
| `Connection.Output.HandleWritebuf` | src/bloomd/networking.c:444-478 | exactly the queued bytes that the kernel takes are sent and leave the queue; exactly when a drain keeps the stream right, and what state it leaves otherwise |
| `Bitmap.WithBitBits` | src/libbloom/bitmap.h:70-82 | setting a bit sets that bit and no other, high bit first |
| `Bitmap.BitSetTracked` | src/libbloom/bitmap.h:78-93 | a set bit keeps every page that differs from the file marked |
| `Bitmap.FlushSaves` | src/libbloom/bitmap.c:271-309 | a flush of page 0 and the marked pages makes file and memory equal |
| `Bitmap.BitmapFile.constructor` | src/libbloom/bitmap.c:31-117 | a mapped file is in memory, in however many pieces it was read |
| `Bitmap.BitmapFile.FillBuffer` | src/libbloom/bitmap.c:141-155 | partial reads fill the memory with the file |
| `Bitmap.BitmapFile.GetBit` | src/libbloom/bitmap.h:70-72 | the shift and mask read the bit |
| `Bitmap.BitmapFile.SetBit` | src/libbloom/bitmap.h:78-93 | the byte operations set the bit and mark its page |
| `Bitmap.BitmapFile.FlushPage` | src/libbloom/bitmap.c:315-334 | partial writes copy exactly the bytes of the page, which may be a short last one |
| `Bitmap.BitmapFile.FlushDirtyPages` | src/libbloom/bitmap.c:271-309 | the page loop makes file and memory equal and clears the marks |
| `BloomFilter.ComputeHashes` | src/libbloom/bloom.c:288-328 | the loop gives each hash by its closed form, with 64-bit wrap and the prime modulus |
| `BloomFilter.PutU64Back` | src/libbloom/bloom.c:155-158 | a header count reads back as written and nothing else changes |
| `BloomFilter.ProbeInside` | src/libbloom/bloom.c:87-89 | every probed bit lies past the header and inside the map |
| `BloomFilter.ProbesDisjoint` | src/libbloom/bloom.c:87-89 | different partitions never share a bit |
| `BloomFilter.InternalContains` | src/libbloom/bloom.c:78-96 | true exactly if every probed bit is set |
| `BloomFilter.Add` | src/libbloom/bloom.c:105-133 | 1 exactly if some bit was missing; afterwards exactly the bits from before and those that the hashes select are set, and the count grows by the result |
| `BloomFilter.AddRecords` | src/libbloom/bloom.c:105-133 | a filter whose bits are those of its keys is such a filter again after an add, for the keys and the added one |
| `BloomFilter.FoundIffCollides` | src/libbloom/bloom.c:78-96 | such a filter finds a key if and only if in every partition its hash is congruent to that of one of the keys |
| `BloomFilter.PartitionsFill` | src/libbloom/bloom.c:78-89 | the partitions take up the whole bitmap but for fewer bits than there are partitions |
| `BloomFilter.HashesAdvance` | src/libbloom/bloom.c:318-327 | as long as no product reaches the prime, the hashes from the fifth on advance by a fixed step |
| `BloomFilter.NewFilter` | src/libbloom/bloom.c:25-68 | a new filter has its header in memory and file, no bits of keys and count zero |
| `BloomFilter.GrownHolds` | src/libbloom/bloom.c:141-150 | a key found in a filter is found in every filter that has at least its bits |
| `Scalable.Sbf.Fresh` | src/libbloom/sbf.c:38-50 | a new list has one empty filter |
| `Scalable.Sbf.From` | src/libbloom/sbf.c:29-37 | a list from existing filters keeps them and works out by index the capacities that were recorded on append |
| `Scalable.InitCapacities` | src/libbloom/sbf.c:278-287 | the loop gives every existing filter the capacity of its place from the oldest |
| `Scalable.Sbf.Contains` | src/libbloom/sbf.c:89-97 | 1 exactly if the keys that some filter took in cover all bits of the key, and always for a key ever added |
| `Scalable.Sbf.AppendFilter` | src/libbloom/sbf.c:197-263 | an empty filter of the next capacity and the given size stands in front, exactly if it can be made; a failure changes nothing |
| `Scalable.Sbf.Add` | src/libbloom/sbf.c:59-81 | 0 exactly if covered, -1 exactly if not, the newest filter is full and no larger one can be made; otherwise the key goes to the newest filter, or to a new one if that is full, and the others are untouched; every filter counts exactly the keys it took in |
| `Scalable.Sbf.Size` | src/libbloom/sbf.c:102-108 | the sum of the counts |
| `Scalable.Sbf.Flush` | src/libbloom/sbf.c:114-129 | flushing only the marked filters saves all of them |
| `Scalable.Sbf.TotalCapacity` | src/libbloom/sbf.c:173-179 | the sum of the capacities |
| `Scalable.Sbf.TotalByteSize` | src/libbloom/sbf.c:184-192 | the sum of the map sizes |
| `Scaling.FewestFilters` | src/libbloom/sbf.c:197-204 | the number of filters is the least whose geometric capacity sum covers the size |
| `Scaling.CapacitiesAddUp` | src/libbloom/sbf.c:278-287 | the capacities of n filters add up to a geometric sum |
| `Scaling.TargetsStayBelow` | src/libbloom/sbf.c:270-272 | the error targets of n filters add up to p(1-r^n), below p (Almeida et al., "Scalable Bloom Filters", 2007) |
| `FileNames.NamesOrdered` | src/bloomd/filter.c:19-22 | below 1000 the names sort as their numbers do |
| `FileNames.SortedUpToThousand` | src/bloomd/filter.c:19-22 | the first n names are sorted exactly for n up to 1000 |
| `FileNames.ListingInOrder` | src/bloomd/filter.c:441-442 | the sorted listing of up to 1000 data files is in order of creation |
| `FilterStore.WriteFiles` | src/bloomd/filter.c:597-616 | every filter's contents are in the file numbered by its creation |
| `FilterStore.LoadFiles` | src/bloomd/filter.c:463-503 | the files of the listing are loaded, the last first |
| `FilterStore.RoundTrip` | src/bloomd/filter.c:435-536 | closing and faulting back restores every filter in its place with its memory contents |
| `FilterStore.Store.Flush` | src/bloomd/filter.c:155-195 | with or without the shortcut for an unchanged size, everything is saved and the figures on record are live |
| `FilterStore.Store.Close` | src/bloomd/filter.c:202-222 | afterwards the files hold the filters as they were, the figures are theirs and the number of keys counted is the same |
| `FilterStore.Store.Fault` | src/bloomd/filter.c:365-381 | filters, order, capacities, the keys of each and the number of keys counted are back; without files a new filter is made, exactly if it can be |
| `FilterStore.Store.Figures` | src/bloomd/filter.c:324-358 | size, capacity and bytes are those of the filter, in memory or proxied |
| `FilterStore.Store.Contains` | src/bloomd/filter.c:274-291 | a key is found exactly if the keys that some filter took in cover all its bits, and always if it was ever added, through growth, flushes, closing and faulting; -1 exactly if there is no filter and none can be made |
| `FilterStore.Store.Add` | src/bloomd/filter.c:299-316 | exactly when each of 0, 1 and -1 is returned, in memory or proxied; which filter takes the key in; the number of keys counted grows by one exactly if the result is 1, and a key with result 0 or 1 is found ever after |

## Left out

- Sockets, listeners, epoll and the other backends, signals, syslog, thread creation: operating system calls.
- conn_handler.c, config.c, ini.c, background.c, bloomd.c and the client tools: glue and range checks that would only add easy members.
- Create, drop and listings look up at one instant; the accesses of a lookup one by one are `MvccLookup`, where the comparison of the two versions is one access.
- The client list as a linked list under concurrent leave: a scan visits a set of clients, and a client that has left no longer counts.
- Shutdown while the vacuum is inside a round: the vacuum is assumed to run until it is idle, and `should_run` to stay set while it waits for clients.
- What the walk of a tree visits is a parameter of a listing; `ArtPrefix.PrefixIteration` states of the walk what the listing asks of it.
- Radix tree nodes are values: updates through pointers, shared leaves and their reference counts, and freeing are not modelled; the vector search of a Node16 is taken as first match among the stored keys.
- Iteration that a callback stops early: the order of visits is what is modelled.
- ArtPrefix.PrefixSound: does not claim that visited keys have the prefix, because they need not have it; exactly when they do is `ArtPrefix.OnlyPrefixedIff`.
- MurmurHash, SpookyHash mixing and short hashing, and the floating-point sizing formulas: uninterpreted functions; a sizing that leaves less than one bit per partition or fewer than four hash functions counts as a failure to create.
- Scalable.Sbf.AppendFilter: a capacity of 2^64 or more counts as a failure, where the C code converts a double out of range.
- Filters inside a scalable filter are values: sharing of bitmaps between objects is not modelled; the array operations on one bitmap are those of `Bitmap.BitmapFile`.
- FilterStore.Store.Fault: the error returns of the loading loop and of `bf_from_bitmap` for a wrong header are not modelled; files are those that a close has left.
- Connection.Input.ReadClientData: a failed read counts as a read of zero bytes, because both return 1 and leave the buffer as it is; the log lines differ.
- FilterStore.Store.Close: asks for at most 1000 filters, because the names of more data files no longer sort by number.
- BloomFilter.ComputeHashes: asks for at least four hash functions, because the C code always writes four entries.
- ArtMap.ArtTree.Insert: asks for prefix-free keys, because the C code reads past the end of a key that is a prefix of another.
- Failed and interrupted writes during a flush, interleaved flushes, and in-memory filters, whose contents are lost on close.
- Connection.Output.HandleWritebuf: a write that takes 0 bytes leaves everything unchanged, where the C code looks at a stale errno.
- Ring.CircBuf.Grow: sizes are unbounded, where the C code keeps them in an int.
- Extracted lines are values: that a line can point into the buffer until the next read is not modelled.
- The two-ary variant of the timer heap, periodic timers, and the pending queue: only the order in which timers are fed.
- Sequential consistency is assumed for the wakeup flags; a pipe that is full counts as readable all the same.
