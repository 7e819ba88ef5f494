# Seven mechanisms of the kernel library, verified

Dafny models of seven state-heavy mechanisms among the vendored Linux components of this repository, and proofs of what they promise. `dafny verify dfyconfig.toml` checks everything.

**Associative array** (`Assoc*.dfy`, after `assoc_array.c`). A 16-way trie with path-compressing shortcuts. Three layers describe it. `AssocTree` to `AssocDelete` treat it as a value: trees whose nodes and shortcuts carry their address, the walk, what an insertion or deletion does to a tree, and the map a tree stands for. `AssocMemory` to `AssocShrink` treat it as memory: cells with slots, back pointers, parent slots and leaf counts, the goto-driven traversals, and the edit scripts with the pointer writes they prepare. `AssocArray` is the object: a class whose methods look up, iterate, script, apply, cancel, clear and destroy. Between operations memory holds exactly the cells of the tree, every back pointer and parent slot is right and every count is the true leaf count.

**AIO completion ring** (`Aio*.dfy`, after `aio.c`). `AioContext` has the steps of any number of CPUs over the per-CPU credits, the compare-and-swap on the global counter, completions, refills, reads and stores to the head by userland. `AioRing` proves over every interleaving that credits are conserved and that the ring is an exactly-once queue. `AioPages` has the page layout and the copying loops, `AioPoll` the ownership of a poll request's references.

**Neighbour cache** (`Neigh*.dfy`, after `neighbour.c` and `arp.c`). `NeighEntry` has every locked operation on an entry as a function of the entry, a timer's expiry and its handler being two of them, `NeighRuns` what holds over all their sequences, `NeighTimers` when a timer is right, exactly, `NeighObject` the entry as an object whose methods update its fields and keep its invariant, `NeighTable` the hash table, and `NeighCache` the table together with the entries it links.

**Completion chains and copying of bios** (`Bio*.dfy`, after `bio.c`). `BioChain` has every access of a completion to shared memory as a step of its own, `BioStatus` what the drivers of a tree of bios learn over every interleaving of such steps. `BioIter` has the iterator over vectors, `BioTurns` the positions a copy of two lists goes through and whether it ends, and `BioCopy` the copying itself.

**The cookie barrier** (`AsyncCookies.dfy`, after `async.c`), **RS485 emulation** (`Rs485.dfy`, after `8250_port.c`) and **the shared interrupt loop** (`IrqLoop.dfy`, after `8250_core.c`) are one module each. `Common` holds what several models share.

## Conventions

- Integers are unbounded. Counters that the source keeps in machine words are shown to stay in range where that matters, as for the AIO credits.
- A protocol is a state, the steps its participants can take, and the histories of such steps. `Leads(h, s)` says that a history is possible and ends in `s`.
- Allocation, user memory and clocks are parameters. `room` is how many more allocations succeed; `writable` is how many events the user's buffer takes before a fault; `now` is the time.
- An associative array key is one machine word, taken as sixteen 4-bit segments, low segment first. Levels count segments, so the source's `level` is four times the model's.
- Frees are events in a log.

## What the code does not do

An insertion does not always leave an array in which lookups agree with the map. `AssocExact.InsertExact` says exactly when they do, as a condition on the array and the key before the call. Two cases fail. One is a shortcut at the root that the key leaves at its second segment: `assoc_array_insert_mid_shortcut` takes it that a parent node has consumed a level, and a lookup then misses keys. The other is a full node of leaves that all share the new key's segment and that itself hangs from a shortcut: its replacement is a shortcut behind a shortcut, which the walk reads as if it were a node. `Find` answers `Misread` there, since what the code returns depends on the bytes of the shortcut. Both happen: `AssocLoss.InsertedKeyLost` and `AssocLoss.ShortcutMisread` give runs of safe insertions and a deletion from the empty array, the insertion that goes wrong and the lookup that shows it. `AssocExact.AnchoredSafe` proves that the second case cannot come up in histories that only insert. The methods of the class that promise agreement with the map, `Assign` and `PrepareAssign`, require the condition; `Insert` does not.

`assoc_array_destroy` frees the tree but does not reset the leaf count, so the array is fit for use again exactly if it was empty (`AssocArray.KeyedArray.Destroy`).

A neighbour entry can be left waiting for a timer that nobody has armed: an update to the incomplete state stops the timer and starts none, and packets sent later find the entry incomplete and do nothing (`NeighTimers.EntryStranded`, `NeighTimers.StrandedStays`). `NeighTimers.AttendedExactly` proves that a live entry is attended to throughout a history if and only if no such update succeeds in it with neither a handler on its way nor a timer armed that it cannot stop.

A timer handler waits for the entry's lock, and the timer may be armed anew before it gets it. If the handler then gives the entry up or lets it go stale, the timer is armed in a state that does not know of it, and the next packet or update that starts a timer adds it twice: the source reports a bug and a reference is lost (`NeighTimers.TimerAddedTwice`). `NeighTimers.LooseExactly` proves that timers belong to their states throughout a history if and only if no such handler ran in it, and `NeighTimers.ReportStep` that a step reports a bug if and only if it starts a timer in that condition. Where every expiry is directly followed by its handler, as on a single processor, neither happens (`NeighTimers.AtOnceSafe`).

A chained bio passes an error on by testing the parent's status and then storing to it. Between the two another completion may store, so that a zero may be stored over an error; a driver that reports success after a child's error has arrived does the same, and one that takes its own error back may make a child withhold another. `BioStatus.InformedExactly` proves that every status is right throughout a history if and only if no step loses an error in one of these ways. `BioStatus.ErrorLost` gives a history of three bios in which the root ends with status zero although a child failed. Counts, frees and the one call of the end function are right in every history.

A bio vector of length zero makes the copying loops turn without end, as a turn there copies and advances by nothing. `BioTurns.EndsExactly` proves that a copy of two lists ends if and only if no empty vector is met before either list is used up, and `BioTurns.GapAheadIs` says which lists those are. `BioCopy.CutStandsStill` gives a pair of bios that makes the loop stand still.

RS485 emulation is safe to switch on exactly if the transmit interrupt is off at that moment (`Rs485.InitSafe`).

## Model

| member | source | states |
|---|---|---|
| `AssocTree.LeavesPrefix` | assoc_array/src/assoc_array.c:171-291 | every leaf of a well-formed subtree has the segments that lead there as its key's prefix |
| `AssocWalk.WalkLocated` | assoc_array/src/assoc_array.c:171-291 | on a well-formed tree the walk ends at a node with no metadata pointer in the key's slot, or at a shortcut the key does not follow, and never anywhere else |
| `AssocWalk.WalkFinds` | assoc_array/src/assoc_array.c:171-291 | a leaf is anywhere in the tree if and only if the node where its own walk ends holds it |
| `AssocWalk.FindBinds` | assoc_array/src/assoc_array.c:305-338 | lookup returns an object if and only if a leaf binds the key to it, and on a well-formed tree it misreads nothing |
| `AssocWalk.FindIsMapLookup` | assoc_array/src/assoc_array.c:305-338 | lookup is lookup in the map the array stands for, on present and absent keys |
| `AssocInsert.FirstDiff` | assoc_array/src/assoc_array.c:816-825 | the first segment at which shortcut and key disagree, with everything before it equal |
| `AssocInsert.MidLeaves` | assoc_array/src/assoc_array.c:796-946 | splitting a shortcut adds exactly the new leaf |
| `AssocInsert.MidWF` | assoc_array/src/assoc_array.c:796-946 | the split of a shortcut is well formed when the level it starts from is the right one |
| `AssocInsert.DivergesBelow` | assoc_array/src/assoc_array.c:716-790 | leaves that cluster first diverge strictly below their node |
| `AssocRefine.TerminalGrows` | assoc_array/src/assoc_array.c:504-790 | every way of growing a terminal node is well formed again, adds the leaf in place of one of the same key if there was one, and makes a shortcut of the node exactly if it is full of other leaves that cluster |
| `AssocRefine.InsertRefinesMap` | assoc_array/src/assoc_array.c:967-1023 | the map after a safe insertion is the old map with the one binding added |
| `AssocExact.InsertExact` | assoc_array/src/assoc_array.c:967-1023 | after an insertion all lookups agree with the updated map if and only if the insertion was safe |
| `AssocExact.NewKeyLost` | assoc_array/src/assoc_array.c:845-850 | a root shortcut left at its second segment, with equal first segments, hides the new key |
| `AssocExact.OldKeyLost` | assoc_array/src/assoc_array.c:845-850 | with different first segments it hides every old key |
| `AssocExact.ClusterBehind` | assoc_array/src/assoc_array.c:710-790 | a clustering node replaced behind a shortcut makes the lookup of the new key read a shortcut as a node |
| `AssocLoss.InsertedKeyLost` | assoc_array/src/assoc_array.c:845-850 | a run of seventeen safe insertions, one more insertion, and a lookup that misses the leaf just inserted |
| `AssocLoss.ShortcutMisread` | assoc_array/src/assoc_array.c:710-790 | a run with a deletion, one more insertion, and a lookup that reads a shortcut as a node |
| `AssocExact.InsertKeepsAnchored` | assoc_array/src/assoc_array.c:477-946 | insertions keep a metadata pointer in every node behind a shortcut |
| `AssocExact.AnchoredSafe` | assoc_array/src/assoc_array.c:710-790 | in such arrays only the root shortcut can make an insertion unsafe |
| `AssocExact.InsertRunRefinesMap` | assoc_array/src/assoc_array.c:967-1023 | after any run of insertions from empty a lookup returns exactly the last object inserted under the key |
| `AssocDelete.FirstSmallHolds` | assoc_array/src/assoc_array.c:1183-1204 | the leaf to delete lies inside the subtree that is collapsed |
| `AssocDelete.DeleteRefinesMap` | assoc_array/src/assoc_array.c:1084-1260 | the map after a deletion is the old map without the key, unconditionally |
| `AssocDelete.RunRefinesMap` | assoc_array/src/assoc_array.c:967-1260 | after any run of safe insertions and deletions every lookup is that of the map after the same updates |
| `AssocMemory.RelinkShape` | assoc_array/src/assoc_array.c:1362-1379 | setting the one link to a replacement makes memory hold the replaced tree, back pointers included |
| `AssocMemory.RelinkCounts` | assoc_array/src/assoc_array.c:1381-1402 | above a replacement every count misses exactly what the replacement added |
| `AssocMemory.PathLinks` | assoc_array/src/assoc_array.c:1384-1399 | back pointers lead from each node of a path to the node before it, past at most one shortcut |
| `AssocMemory.PathLast` | assoc_array/src/assoc_array.c:1384-1399 | the path to a node ends there |
| `AssocSlots.ScanSlots` | assoc_array/src/assoc_array.c:502-522 | finds the slot with the key, or else the last empty slot, or else there is none |
| `AssocSlots.SomeCollide` | assoc_array/src/assoc_array.c:628-645 | in a full node two of the seventeen leaves want the same slot without a metadata pointer |
| `AssocSlots.FindPair` | assoc_array/src/assoc_array.c:628-645 | the double loop finds such a slot and its failure branch is unreachable |
| `AssocSlots.EnoughRoom` | assoc_array/src/assoc_array.c:649-686 | there is an empty slot for every leaf that stays |
| `AssocSlots.NextFree` | assoc_array/src/assoc_array.c:668-670 | the scan for the next empty slot stays inside the node |
| `AssocSlots.DealOut` | assoc_array/src/assoc_array.c:658-673 | the filter loop deals every leaf to the node it belongs in |
| `AssocSlots.Distribute` | assoc_array/src/assoc_array.c:647-688 | the two nodes of a split hold all leaves and the new one, those that want the chosen slot in the new node, metadata pointers where they were, and neither node overflows |
| `AssocTraverse.VisitsLeaves` | assoc_array/src/assoc_array.c:19-108 | the recursive traversal visits every leaf exactly once |
| `AssocTraverse.Climb` | assoc_array/src/assoc_array.c:88-107 | the back pointer and parent slot of a finished node name the next slot of the enclosing one, or the end |
| `AssocTraverse.SubtreeIterate` | assoc_array/src/assoc_array.c:19-108 | the traversal without a stack visits what the recursive one visits, in its order, and stops at the first non-zero answer |
| `AssocDestroy.DestroysMeta` | assoc_array/src/assoc_array.c:345-428 | destruction frees every node and shortcut exactly once and nothing else |
| `AssocDestroy.DestroysLeaves` | assoc_array/src/assoc_array.c:345-428 | destruction frees every leaf exactly once if operations were given, and none otherwise |
| `AssocDestroy.DestroySubtree` | assoc_array/src/assoc_array.c:345-428 | the loop that destroys while it climbs frees in the recursive order, never reads a freed cell, and leaves the rest of memory alone |
| `AssocScript.CommitShape` | assoc_array/src/assoc_array.c:1376-1379 | the one write that hangs the replacement makes memory and the root pointer those of the new tree |
| `AssocScript.CommitCounts` | assoc_array/src/assoc_array.c:1381-1402 | and leaves only the counts on the way to the root to adjust |
| `AssocStage.WalkCells` | assoc_array/src/assoc_array.c:171-291 | the walk over cells reports what the walk over the tree says |
| `AssocStage.FindCells` | assoc_array/src/assoc_array.c:305-338 | so does the lookup |
| `AssocStage.DealNode` | assoc_array/src/assoc_array.c:622-688 | a full node whose leaves do not all cluster is dealt out over two nodes, with the count of the new one |
| `AssocStage.SplitNode` | assoc_array/src/assoc_array.c:598-714 | the prepared cells and writes hold the split node, children rehung, counts right but for the new leaf |
| `AssocEdits.AllCluster` | assoc_array/src/assoc_array.c:567-596 | decides whether all leaves and the new one share one segment |
| `AssocEdits.Divergence` | assoc_array/src/assoc_array.c:731-742 | finds the first level at which some leaf leaves the new key |
| `AssocEdits.OneWriteScripted` | assoc_array/src/assoc_array.c:504-533 | one overwritten slot, with its count, is a complete script |
| `AssocGrowth.InsertInEmptyTree` | assoc_array/src/assoc_array.c:454-472 | scripts a root node with the first leaf; fails exactly without memory for it |
| `AssocGrowth.InsertIntoTerminalNode` | assoc_array/src/assoc_array.c:477-791 | scripts an insertion step at the terminal node and names the replaced leaf; fails exactly if the split lacks memory |
| `AssocGrowth.InsertIntoFullNode` | assoc_array/src/assoc_array.c:535-790 | scripts the split of a full node, in place with two new cells or behind a new shortcut with three |
| `AssocGrowth.SplitBehindShortcut` | assoc_array/src/assoc_array.c:716-790 | clustering leaves are split at their first divergence behind a shortcut that spells out what they share |
| `AssocGrowth.InsertMidShortcut` | assoc_array/src/assoc_array.c:796-946 | scripts a node where the key leaves the shortcut, with the pieces before and after that are not empty; fails exactly without memory for them |
| `AssocGrowth.ScriptInsert` | assoc_array/src/assoc_array.c:967-1023 | scripts one insertion step on any array; fails exactly if the cells it needs are not to be had, and then only its own cells are left to free |
| `AssocShrink.TopmostSmall` | assoc_array/src/assoc_array.c:1183-1204 | a small node under a big one or under none is the first small node on the way from the root |
| `AssocShrink.NoneSmall` | assoc_array/src/assoc_array.c:1163-1204 | if the terminal node has more than seventeen leaves, so have all nodes above it |
| `AssocShrink.CollapseUp` | assoc_array/src/assoc_array.c:1183-1204 | the climb ends at the topmost node with at most seventeen leaves |
| `AssocShrink.Compact` | assoc_array/src/assoc_array.c:1051-1063 | copies exactly the surviving leaves into the slots of one node, which they fit |
| `AssocShrink.CollapseNode` | assoc_array/src/assoc_array.c:1206-1250 | scripts the collapse of that subtree into one node; fails exactly without memory for the node |
| `AssocShrink.ScriptDelete` | assoc_array/src/assoc_array.c:1084-1260 | scripts one deletion step and names the deleted leaf, or says that the key is not there, or that the collapse lacks memory |
| `AssocArray.WriteScript` | assoc_array/src/assoc_array.c:1362-1379 | performs all pointer writes of a script |
| `AssocArray.AdjustCounts` | assoc_array/src/assoc_array.c:1383-1402 | the climb by back pointers makes every count the true leaf count and changes no other cell |
| `AssocArray.RcuCleanup` | assoc_array/src/assoc_array.c:1308-1338 | frees the dead leaf, the replaced cell or the cut-off subtree, once, and nothing else |
| `AssocArray.ApplyScript` | assoc_array/src/assoc_array.c:1353-1405 | memory, root and count after applying are those of the new tree, with no cell left over |
| `AssocArray.InsertRebinds` | assoc_array/src/assoc_array.c:967-1023 | a safe insertion step changes exactly the one lookup |
| `AssocArray.DeleteUnbinds` | assoc_array/src/assoc_array.c:1084-1260 | a deletion step makes exactly the one lookup fail |
| `AssocArray.RetiresOnly` | assoc_array/src/assoc_array.c:1308-1338 | applying such a script frees exactly the object that was bound to the key, once, if any |
| `AssocArray.KeyedArray.constructor` | include/linux/assoc_array.h:54-58 | an empty array |
| `AssocArray.KeyedArray.Lookup` | assoc_array/src/assoc_array.c:305-338 | the lookup of the tree |
| `AssocArray.KeyedArray.Iterate` | assoc_array/src/assoc_array.c:133-143 | visits every leaf once, in the order of the recursive traversal, until the callback answers non-zero |
| `AssocArray.KeyedArray.Insert` | assoc_array/src/assoc_array.c:967-1023 | scripts an insertion exactly if there is memory; otherwise nothing has changed |
| `AssocArray.KeyedArray.Delete` | assoc_array/src/assoc_array.c:1084-1260 | scripts a deletion exactly if the key is there and there is memory; otherwise nothing has changed |
| `AssocArray.KeyedArray.Clear` | assoc_array/src/assoc_array.c:1281-1302 | scripts the removal of everything; says that there is nothing exactly if the array is empty, and that memory is short exactly if it is not and none is left |
| `AssocArray.KeyedArray.ApplyEdit` | assoc_array/src/assoc_array.c:1353-1405 | the array is intact and stands for the new tree |
| `AssocArray.KeyedArray.CancelEdit` | assoc_array/src/assoc_array.c:1418-1436 | the new cells go and the array is as it was before scripting |
| `AssocArray.KeyedArray.Destroy` | assoc_array/src/assoc_array.c:443-448 | all cells freed in the order of the traversal; usable again if and only if it was empty |
| `AssocArray.KeyedArray.Assign` | assoc_array/src/assoc_array.c:967-1023 | insert and apply: exactly one lookup changes, exactly the replaced object is freed, and success exactly if there is memory |
| `AssocArray.KeyedArray.Remove` | assoc_array/src/assoc_array.c:1084-1260 | delete and apply: exactly one lookup fails from then on and exactly its object is freed |
| `AioContext.StepConserves` | aio/src/aio.c:903-1018 | no step creates or loses a credit and no counter goes negative, whatever userland stores in the head |
| `AioContext.RefillExact` | aio/src/aio.c:957-980 | a refill leaves as completed the smaller of what was and the events between the head it read and the tail, and its CPU carries exactly the difference |
| `AioContext.SwapExact` | aio/src/aio.c:929-943 | the swap takes a batch, and the request, exactly if the counter still has the value read and that is enough; a changed value is read again, and too little means no request |
| `AioContext.GetUndisturbed` | aio/src/aio.c:920-948 | undisturbed, a credit is got exactly if the CPU has one or the global counter a batch |
| `AioContext.GiveBackExact` | aio/src/aio.c:903-918 | undisturbed, credits given back all end in the two counters, in whole batches in the global one, and the CPU keeps fewer than two batches but one at least if it gave one away |
| `AioContext.CompleteExact` | aio/src/aio.c:1089-1138 | a completion puts its event in the slot at the tail, moves the tail on by one modulo the ring, turns the request into a completed event, and goes on to refill exactly if that is not the only one |
| `AioContext.UserRefillExact` | aio/src/aio.c:986-1010 | undisturbed, it frees the slots that the head says are read into the two counters, lets the lock go and leaves all else as it was |
| `AioContext.FailGivesBack` | aio/src/aio.c:1892-1899 | a submission that fails gives its one credit back to the counters |
| `AioContext.OthersKept` | aio/src/aio.c:903-1018 | a step of one CPU leaves the counters and the place of every other alone |
| `AioContext.ChunkFits` | aio/src/aio.c:1216-1225 | a chunk is not empty, not more than wanted and does not run past the ring |
| `AioRing.RunConserves` | aio/src/aio.c:903-1018 | over any interleaving on any number of CPUs, submission errors included, free slots, per-CPU credits, requests and completions add up to one less than the ring |
| `AioRing.RoomLeft` | aio/src/aio.c:957-980 | completed events and requests still out fit into the ring with a slot to spare |
| `AioRing.StepFifo` | aio/src/aio.c:1089-1252 | every step but a store to the head by userland keeps the ring a queue |
| `AioRing.EmptyIff` | aio/src/aio.c:1192-1206 | head and tail agree exactly if everything has been read |
| `AioRing.RefillFrees` | aio/src/aio.c:957-980 | in a queue a refill leaves as completed exactly the events unread when it loaded the head, so that every slot read before is freed |
| `AioRing.ReadStarts` | aio/src/aio.c:1192-1206 | a read begins exactly if there are unread events, and sees all of them |
| `AioRing.ReadTakes` | aio/src/aio.c:1208-1252 | a read goes on until it has the smaller of what was wanted and what it saw, and hands out exactly those next events |
| `AioRing.FaultKeeps` | aio/src/aio.c:1231-1235 | a read that faults hands nothing out and loses nothing |
| `AioRing.StoreFifo` | aio/src/aio.c:966-968 | a store to the head by userland leaves the ring a queue if and only if it changes nothing |
| `AioRing.ChunkIsNext` | aio/src/aio.c:1208-1240 | a chunk holds the next unread events and does not pass the tail seen at the start |
| `AioRing.RunFifo` | aio/src/aio.c:1089-1252 | over any interleaving in which only the reader moves the head the queue invariant holds |
| `AioRing.RunDelivers` | aio/src/aio.c:1089-1252 | the log is what the history completed, in order; reads hand it out in order, each event once, and no unread event is overwritten |
| `AioPages.RingBigEnough` | aio/src/aio.c:460-487 | the ring holds more events than asked for, with no page too many, and fills its pages but for the header |
| `AioPages.EventInside` | aio/src/aio.c:557-559 | every event lies inside one page and behind the header |
| `AioPages.EventsApart` | aio/src/aio.c:557-559 | no two events overlap |
| `AioPages.ChunkOfPage` | aio/src/aio.c:1220-1230 | a run inside a page is a run of the ring |
| `AioPages.StoreEvent` | aio/src/aio.c:1104-1113 | an event stored at an index of the ring changes that event of the ring and no other |
| `AioPages.CopyEvents` | aio/src/aio.c:1208-1240 | the loop copies exactly the events asked for, or as many as there are, or faults exactly if the buffer does not take them |
| `AioPages.ReadEventsRing` | aio/src/aio.c:1174-1252 | the head moves past exactly the events handed out, around the end of the ring, and not at all on a fault |
| `AioPages.ReadUnread` | aio/src/aio.c:1174-1252 | in every state of the queue a read hands out the oldest unread events, as many as are wanted and there are, and moves the head past exactly those; it faults exactly if the buffer does not take them |
| `AioPages.AroundUnread` | aio/src/aio.c:1208-1240 | the events around the ring from the head on are the completed ones that nobody has read, in order |
| `AioPages.PutReqsAvailable` | aio/src/aio.c:903-918 | whole batches go to the global counter, keeping between one and two of them, and nothing is lost |
| `AioPoll.StepOwned` | aio/src/aio.c:1621-1800 | every step hands the asynchronous reference on, keeps it or drops it for good; a request can be cancelled exactly while it is settled, held and neither done nor cancelled, and a cancelled one never waits again |
| `AioPoll.RunOwned` | aio/src/aio.c:1621-1800 | the ownership invariant in every reachable state |
| `AioPoll.RunSafe` | aio/src/aio.c:1856-1901 | at most one place holds the asynchronous reference, the work item is never scheduled while in use, the event is delivered and the request freed at most once, a freed request has had its event delivered unless the submission failed, and a failed one delivers nothing |
| `AioPoll.RunEnds` | aio/src/aio.c:1621-1901 | a request is never left behind: until nobody has anything to do with it some step is possible, and then it is freed, its event delivered exactly if the submission did not fail |
| `AioPoll.StepAdvances` | aio/src/aio.c:1621-1800 | every step brings the request nearer to its end, but putting it on a wait queue and polling in vain |
| `AioPoll.RunEarned` | aio/src/aio.c:1621-1800 | in any history a request is done, or its event delivered, only if a poll or a waker holding the lock found the event or it was cancelled, by a canceller or because the file has more than one wait queue; a submission fails only if the file has not exactly one; a cancelled request is not queued |
| `AioPoll.DecideConcludes` | aio/src/aio.c:1765-1800 | what the submitter decides: with no wait queue it has the event or fails; a request that still waits it takes back with event or failure and else leaves waiting, to be cancelled; one that somebody else has is theirs, and cancelled exactly if the file asked for a second queue |
| `AioPoll.WorkConcludes` | aio/src/aio.c:1629-1660 | a work item that found nothing on an uncancelled request leaves it queued, not done, undelivered and to be cancelled; any other makes it done |
| `AioPoll.WakeConcludes` | aio/src/aio.c:1678-1718 | a waker makes the request done exactly if it found the event and got the lock, and leaves the drop to a work item exactly if it may not signal; otherwise the work item polls again |
| `NeighEntry.ConstructSound` | arp/src/arp.c:221-290 | a new entry has its creator's reference and the output its state calls for |
| `NeighEntry.ConstructPrepares` | arp/src/arp.c:221-290 | a new entry is usable exactly if the device or the address needs no resolution, and has the mapped, the device's own or the broadcast address accordingly |
| `NeighEntry.HandleSound` | arp/src/neighbour.c:1016-1103 | the timer handler keeps references counted and the output right, leaves the link alone and reports nothing; it leaves the timer of a live entry armed if the state uses one, and otherwise only if it had been armed anew |
| `NeighEntry.HandleLeads` | arp/src/neighbour.c:1033-1080 | where the handler leads: reachable stays so while confirmed within its time, then becomes delayed if used within the delay and else stale; delayed becomes reachable if confirmed within the delay, and else is probed, or failed with no probes to send; a probing state fails exactly if its probes are spent. Address and times stay, and one solicitation is sent exactly if the entry goes on probing |
| `NeighEntry.ConfirmHelps` | arp/src/neighbour.c:1033-1061 | a recent confirmation keeps a reachable entry so and makes a delayed one reachable |
| `NeighEntry.SendSound` | arp/src/neighbour.c:1105-1184 | so does sending; it does not change a connected state, and a live entry is then usable, given up, or waiting for a timer or handler, exactly unless it was incomplete with neither, in which case it stays so |
| `NeighEntry.SendNotes` | arp/src/neighbour.c:1105-1184 | a packet is noted as a use; it makes a live stale entry delayed and a new or failed one incomplete, or failed with nothing to solicit with, with the timer armed, and changes no other state; a dead entry only notes the use |
| `NeighEntry.UpdateSound` | arp/src/neighbour.c:1227-1409 | so does an update: one that is refused changes nothing, one that succeeds leaves the address usable or the very state asked for, with the timer stopped if it belonged to the state before |
| `NeighEntry.FlushSound` | arp/src/neighbour.c:286-338 | so does flushing: no link is left and no timer that the state knew of, and the entry is destroyed, or can send nothing and is NOARP if it was usable and else in no state |
| `NeighEntry.LifeSound` | arp/src/neighbour.c:177-338 | so do linking, taking and dropping references, collection and expiry, which report nothing and leave no entry unattended |
| `NeighEntry.LifeSteps` | arp/src/neighbour.c:177-338 | who holds the entry and whether it is linked after each of these and after a flush; it is destroyed exactly with its last reference |
| `NeighEntry.LastReleased` | arp/src/neighbour.c:828-860 | giving up the last reference destroys a dead entry; one that is alive is reported and stays, and a timer still armed is reported and stopped |
| `NeighEntry.ProbeOnceSound` | arp/src/neighbour.c:1421-1433 | so does probing once |
| `NeighEntry.ProbedOnce` | arp/src/neighbour.c:1421-1433 | a failed entry that is probed once waits for one timer, solicits nothing and fails again |
| `NeighEntry.StepSound` | arp/src/neighbour.c:177-1433 | so does every operation |
| `NeighRuns.RunSound` | arp/src/neighbour.c:177-1433 | the invariant holds in every reachable state of an entry, handlers waiting for the lock included |
| `NeighRuns.RunCounted` | arp/src/neighbour.c:256-274 | references are exactly the table's link, the armed timer, the waiting handler, the holders, and one lost for every report; nothing but a timer added twice is ever reported; destroyed exactly at zero and never while linked |
| `NeighRuns.CollectSafe` | arp/src/neighbour.c:177-196 | collection leaves an entry with a timer, a handler or a user alone and destroys any other |
| `NeighRuns.FastPathRight` | arp/src/neighbour.c:866-883 | the output of a linked entry: always direct without headers, always resolving with cached headers, and else fast exactly in the connected states |
| `NeighRuns.UpdateAddress` | arp/src/neighbour.c:1208-1321 | the address after any update: the proposed one exactly if it differs, the update is to a usable state and is answered with success, and it overrides or finds no usable address; otherwise the old one |
| `NeighRuns.UpdateState` | arp/src/neighbour.c:1208-1341 | a refused update changes nothing; a weak override only makes a connected entry stale; news of a known address does not make it stale; otherwise the entry gets the requested state |
| `NeighRuns.UpdateConfirms` | arp/src/neighbour.c:1285-1321 | when an entry counts as confirmed after an update: now for a connected state, too long ago for an address supplied in any other usable state, and else as before; probing starts from zero, and otherwise probes and solicitations stay |
| `NeighRuns.PinnedStays` | arp/src/neighbour.c:1246-1248 | a permanent or NOARP entry keeps state and address through any sequence of sends, timers and non-administrative updates |
| `NeighRuns.SendResolves` | arp/src/neighbour.c:1118-1131 | the first packet for an unresolved entry starts resolution with one solicitation |
| `NeighRuns.SendGivesUp` | arp/src/neighbour.c:1132-1139 | with nothing to solicit with it fails the entry at once |
| `NeighRuns.DelayVerifies` | arp/src/neighbour.c:1052-1070 | a delay that runs out unconfirmed starts verification |
| `NeighRuns.UpdateVerifies` | arp/src/neighbour.c:1330-1341 | so does an update to that state |
| `NeighRuns.ResolveOrder` | arp/src/arp.c:374-391 | probes of an unresolved entry go first to the daemon, then out by broadcast |
| `NeighRuns.VerifyOrder` | arp/src/arp.c:374-391 | probes of an entry under verification go out by unicast, then to the daemon, then by broadcast |
| `NeighRuns.ResolveTick` | arp/src/neighbour.c:1071-1091 | each handler sends one solicitation until the budget is spent, the next gives up |
| `NeighRuns.VerifyTick` | arp/src/neighbour.c:1071-1091 | likewise under verification |
| `NeighRuns.ResolveBudget` | arp/src/neighbour.c:967-1091 | without news an unresolved entry spends exactly APP plus MCAST probes before it fails, whatever packets are sent before or after a timer expires, and all that time a timer or handler is to come; what goes out are solicitations in that order of kinds, and none from a table without a hook for them |
| `NeighRuns.VerifyBudget` | arp/src/neighbour.c:967-1091 | an entry under verification spends exactly UCAST plus APP plus MCAST_REPROBES probes before it fails, a timer or handler being to come all that time; what goes out are solicitations in that order of kinds, and none from a table without a hook |
| `NeighTimers.LooseStep` | arp/src/neighbour.c:1016-1103 | a timer comes to be armed in a state that does not use it by a handler that finds it armed anew and gives the entry up or lets it go stale, and by nothing else |
| `NeighTimers.ReportStep` | arp/src/neighbour.c:256-264 | a step reports a bug if and only if it starts the timer of an entry in that condition |
| `NeighTimers.LooseExactly` | arp/src/neighbour.c:1016-1103 | timers belong to their states throughout a history if and only if no such handler ran in it |
| `NeighTimers.NothingReported` | arp/src/neighbour.c:256-274 | then nothing is ever reported, a pending timer means a linked entry in a timer state, and no reference is lost |
| `NeighTimers.AtOnceSafe` | arp/src/neighbour.c:1016-1103 | it is enough that every handler runs right after its timer expired |
| `NeighTimers.TimerAddedTwice` | arp/src/neighbour.c:1082-1085 | a history in which a waiting handler leads to a timer added twice |
| `NeighTimers.AttendedStep` | arp/src/neighbour.c:1256-1268 | a live entry in a timer state loses its timer by a successful update to the incomplete state with neither a handler on its way nor a timer armed that it cannot stop, and by nothing else |
| `NeighTimers.AttendedExactly` | arp/src/neighbour.c:1256-1268 | a live entry is attended to throughout a history if and only if the history has no such update |
| `NeighTimers.StrandedStays` | arp/src/neighbour.c:1105-1184 | an incomplete entry without timer or handler stays so through any packets, and nothing is asked |
| `NeighTimers.EntryStranded` | arp/src/neighbour.c:1256-1268 | an administrative update makes a new entry one |
| `NeighObject.Neighbour.constructor` | arp/src/arp.c:221-290 | a valid entry that only its creator holds, usable at once exactly if the device or the address needs no resolution, with the address and the output that fit |
| `NeighObject.Neighbour.LinkIn` | arp/src/neighbour.c:644-653 | the entry is live, with the table's reference and one for the creator exactly if it wants one |
| `NeighObject.Neighbour.LetGo` | include/net/neighbour.h:421-425 | a holder's reference goes; the entry is destroyed exactly if it was the last, and then neither link, timer, handler nor holder is left |
| `NeighObject.Neighbour.TimerHandler` | arp/src/neighbour.c:1016-1103 | the state that clock and probes lead to from each state, address and times as before; nothing is reported and link and holders stay; the timer of a live entry is armed exactly if it had been armed anew or the state uses one; references are link, timer and holders but for those lost to reports, and the output fits the state |
| `NeighObject.Neighbour.EventSend` | arp/src/neighbour.c:1105-1184 | the use is noted, link, holders, address and confirmation stay, the output fits; a live entry goes to the state that a packet leads to, and is then usable, given up, or waiting for a timer or handler, exactly unless it was incomplete with neither |
| `NeighObject.Neighbour.SetProbeOnce` | arp/src/neighbour.c:1421-1433 | a live failed entry waits once more, timer running and no probe left; any other is unchanged |
| `NeighObject.Neighbour.UpdateEntry` | arp/src/neighbour.c:1227-1409 | the error answered; a refused update changes nothing, a successful one leaves the address usable or the very state asked for, with no timer but a loose one; references and output stay right |
| `NeighObject.Neighbour.Del` | arp/src/neighbour.c:177-196 | the entry goes exactly if it has no timer, handler, holder or lost reference, and is then destroyed; otherwise nothing changes |
| `NeighObject.Neighbour.FlushOut` | arp/src/neighbour.c:286-338 | the entry is dead and unlinked, with no timer that its state knew of, and destroyed, or unable to send and NOARP or in no state |
| `NeighTable.IndexBelow` | arp/src/neighbour.c:624 | the top bits of a hash name a bucket of the table |
| `NeighTable.BucketFinds` | include/net/neighbour.h:280-304 | looking in the one bucket is looking in the map |
| `NeighTable.WalkChain` | arp/src/neighbour.c:631-642 | finds the first entry of a name |
| `NeighTable.HashGrow` | arp/src/neighbour.c:480-519 | under any new seed every entry is moved to its bucket, exactly once |
| `NeighTable.PushFresh` | arp/src/neighbour.c:644-653 | an entry of a new name adds one binding |
| `NeighTable.CutHolds` | arp/src/neighbour.c:198-219 | unlinking an entry removes its binding |
| `NeighTable.Flushed` | arp/src/neighbour.c:286-338 | unlinking in every chain removes exactly the bindings that match |
| `NeighTable.Table.constructor` | arp/src/neighbour.c:1698 | an empty table of eight buckets |
| `NeighTable.Table.Lookup` | arp/src/neighbour.c:521-538 | lookup in the map the table stands for |
| `NeighTable.Table.Grow` | arp/src/neighbour.c:480-519 | twice the buckets under a new seed, the same entries; nothing without memory |
| `NeighTable.Table.Create` | arp/src/neighbour.c:617-653 | adds the binding of a new name, or reports the one there is, or refuses; grows first when too full |
| `NeighTable.Table.FlushDev` | arp/src/neighbour.c:286-338 | removes exactly the bindings of the device that are not to be kept |
| `NeighCache.OnePerName` | arp/src/neighbour.c:631-642 | at most one linked entry has a given device and key |
| `NeighCache.Cache.Lookup` | arp/src/neighbour.c:521-538 | finds the one linked entry of a name and holds it, or there is none |
| `NeighCache.Cache.Create` | arp/src/neighbour.c:572-666 | links a newly constructed entry exactly if no linked entry has its name and the device stays; otherwise hands out the one there is; the caller holds what it gets if it wants to |
| `NeighCache.Cache.RemoveOne` | arp/src/neighbour.c:177-219 | takes an entry out and destroys it exactly if it is linked and has neither timer, handler, holder nor lost reference; otherwise nothing changes |
| `NeighCache.Cache.FlushDev` | arp/src/neighbour.c:286-338 | flushes exactly the linked entries of the device, permanent ones excepted if so asked, and leaves every other entry as it was |
| `NeighCache.OnEntryLinked` | arp/src/neighbour.c:1016-1433 | no operation on an entry links or unlinks it |
| `NeighCache.Cache.Operate` | arp/src/neighbour.c:1016-1433 | so timers, sends and updates keep table and entries in agreement |
| `BioChain.ChainSound` | bio/src/bio.c:338-345 | chaining keeps the tree's books |
| `BioChain.ReportSound` | bio/src/bio.c:1419-1453 | a driver storing a status, zero or not and as often as it likes, keeps them |
| `BioChain.CallSound` | bio/src/bio.c:1419-1453 | a driver ending a bio, once, keeps them |
| `BioChain.NoBug` | bio/src/bio.c:1386-1403 | the check on the remaining count never fires, and a parent is never finished before its child |
| `BioChain.TurnSound` | bio/src/bio.c:1419-1453 | every decrement keeps them, and the bio goes on waiting exactly if it was not the last one |
| `BioChain.TestSound` | bio/src/bio.c:312-320 | so does reading the parent's status |
| `BioChain.StoreSound` | bio/src/bio.c:312-325 | so does storing to it, whatever was stored in between |
| `BioChain.DoneBelow` | bio/src/bio.c:1419-1453 | a finished bio has only finished descendants, each ended by its driver |
| `BioChain.QuietDone` | bio/src/bio.c:1419-1453 | with no completion on its way a bio is finished once it and all below it were ended |
| `BioChain.EndCarried` | bio/src/bio.c:1419-1453 | a completion that runs to its end uses up the one decrement it began with, leaves none and nothing halfway behind, and neither replaces nor erases a status |
| `BioChain.EndedQuiet` | bio/src/bio.c:1419-1453 | where nothing was on its way nothing is after a bio was ended, and every root of which all was ended has ended |
| `BioStatus.HistoryTells` | bio/src/bio.c:312-346 | in any history the tree is the one that was chained, the errors are those the drivers reported last, and a bio was ended exactly if its driver did so |
| `BioStatus.EndingRuns` | bio/src/bio.c:1419-1453 | ending a bio in one go, with all the ends that follow from it, is one of the histories of single accesses |
| `BioStatus.FinalStatus` | bio/src/bio.c:312-320 | a finished bio reports an error if and only if some failure at or below it was not erased on the way up |
| `BioStatus.RootEndsOnce` | bio/src/bio.c:312-346 | for any tree and any interleaving of accesses the root's end function runs at most once, after everything below has finished, and has run once all were ended and no completion is on its way; an error it reports occurred, and it reports one exactly if one survived |
| `BioStatus.ChainedFreedOnce` | bio/src/bio.c:312-325 | a chained bio is freed exactly once, when it has handed its status on, and its own end function never runs |
| `BioStatus.ErasedBy` | bio/src/bio.c:312-320 | a status comes to hide an error that stands exactly by a step that loses one: a zero stored over an error, or an error withheld for one that has been taken back |
| `BioStatus.InformedExactly` | bio/src/bio.c:312-320 | every status is right throughout a history if and only if no step loses an error |
| `BioStatus.UndisturbedStatus` | bio/src/bio.c:312-346 | then a finished root reports an error if and only if something in its tree failed |
| `BioStatus.SerialUndisturbed` | bio/src/bio.c:312-320 | it is enough that every store directly follows its test and that drivers store only errors |
| `BioStatus.ErrorLost` | bio/src/bio.c:312-320 | a history in which the root ends with status zero although a child failed |
| `BioChain.TurnInPlace` | bio/src/bio.c:1419-1453 | the decrement in place, which reports exactly the last completion of a chained bio |
| `BioChain.HandOnSound` | bio/src/bio.c:312-325 | undisturbed, a child hands its status to a parent that has none, never erases one, and the parent then waits for one completion less |
| `BioChain.BioEndio` | bio/src/bio.c:1419-1453 | only bio `i` becomes ended by its driver; no bio has more completions on their way than before or is newly halfway, a waiting bio stays or is finished, and no status is replaced or erased; where nothing was on its way, every root with nothing below it left to end has run its end function; the loop does what the recursive definition does |
| `BioIter.SegmentNext` | include/linux/bvec.h:57-94 | a segment stays inside a page and its vector and names the next bytes; it is empty exactly at an empty vector |
| `BioIter.SegmentFull` | include/linux/bvec.h:57-94 | it goes as far as what is left, the vector or the page allows |
| `BioIter.Advance` | include/linux/bvec.h:96-118 | advancing drops exactly so many bytes; asking for too much empties the iterator |
| `BioIter.GapIs` | include/linux/bvec.h:57-94 | an iterator meets a gap exactly if some empty vector has fewer bytes in front of it than are left |
| `BioTurns.StepWorks` | bio/src/bio.c:1190-1272 | a step of the copy gets somewhere or, exactly at an empty vector, nowhere at all |
| `BioTurns.EndsExactly` | bio/src/bio.c:1190-1272 | the copy of two lists ends if and only if no empty vector is met before either list is used up |
| `BioTurns.StandsStill` | bio/src/bio.c:1190-1272 | a copy that does not end comes to stand at a position it never leaves |
| `BioTurns.GapAheadIs` | bio/src/bio.c:1248-1272 | that is, at an empty vector inside what is left of its bio, with so few bytes of the list in front |
| `BioCopy.ChunkCopied` | bio/src/bio.c:1190-1218 | copying the next chunk extends what has been copied and changes nothing else |
| `BioCopy.BioCopyData` | bio/src/bio.c:1229-1236 | a copy of one bio to another that meets no empty vector in time ends, with as many bytes as the smaller has left in place, in order, and no other byte changed |
| `BioCopy.BioListCopyData` | bio/src/bio.c:1248-1272 | a copy that meets no empty vector in time ends, with exactly the first bytes of the flattened source, as many as the shorter list holds, in the flattened destination in order, and no other byte changed |
| `BioCopy.CutStandsStill` | bio/src/bio.c:1190-1218 | a pair of bios on which the loop stands still |
| `AsyncCookies.StepSound` | async/src/async.c:109-215 | every step keeps the lists sorted, complete and counted |
| `AsyncCookies.ScheduleQueues` | async/src/async.c:196-205 | a scheduled cookie is new, in progress in its domain and not finished, in the common list exactly if the domain is registered, and every other cookie is as before |
| `AsyncCookies.HistoryTells` | async/src/async.c:109-215 | the state is what the history says: one cookie for each call, in progress from being queued until taken off the lists, finished exactly if the function returned, registered as last asked |
| `AsyncCookies.Barrier` | async/src/async.c:288-307 | a waiter that passes knows that every entry queued below its cookie has finished |
| `AsyncCookies.BlockedBy` | async/src/async.c:81-104 | a waiter that does not pass waits for a smaller cookie that is still listed |
| `AsyncCookies.LowestNotBlocked` | async/src/async.c:81-104 | the lowest entry in progress may wait on its own cookie |
| `AsyncCookies.RunSound` | async/src/async.c:109-215 | the invariant in every reachable state |
| `AsyncCookies.RunOrdered` | async/src/async.c:81-215 | in every reachable state lists are sorted, the counter is the number of entries in progress and the barrier holds for every waiter and scope |
| `AsyncCookies.BarrierLasts` | async/src/async.c:288-307 | what a waiter saw finished stays finished |
| `AsyncCookies.PassesExactly` | async/src/async.c:81-104 | a waiter passes if and only if the history has no entry queued in its scope below its cookie and not yet taken off |
| `AsyncCookies.ScheduledBlocks` | async/src/async.c:196-205 | from the call that queues an entry until it is taken off, in every continuation, no waiter on a larger cookie of its domain passes, nor of all domains if the domain was registered |
| `Rs485.InitSafe` | 8250/src/8250_port.c:608-630 | switching on establishes the phases if and only if the transmit interrupt is off |
| `Rs485.StartSafe` | 8250/src/8250_port.c:1611-1667 | starting keeps the phases |
| `Rs485.StopSafe` | 8250/src/8250_port.c:1497-1540 | stopping keeps them |
| `Rs485.ExpirySafe` | 8250/src/8250_port.c:1467-1486 | both timers keep them |
| `Rs485.RunSafe` | 8250/src/8250_port.c:1467-1667 | the phases hold over every interleaving |
| `Rs485.SendsOnlyDriven` | 8250/src/8250_port.c:1559-1584 | data goes out only while the driver is on and in neither delay |
| `Rs485.Receives` | 8250/src/8250_port.c:1443-1613 | reception that is wanted throughout is never switched; otherwise it is on exactly while the driver is off |
| `Rs485.DrivesUntilStopped` | 8250/src/8250_port.c:1467-1650 | a transmission under way, by interrupt or DMA, is turned off by no sequence of starts, ineffective stops and expiries of either timer, however old |
| `Rs485.StartTakesEffect` | 8250/src/8250_port.c:1611-1667 | a start takes the line at once and sends at once or, with a delay before, when its timer expires |
| `Rs485.StopLetsGo` | 8250/src/8250_port.c:1497-1540 | a stop ends the sending at once and lets the line go at once or, with a delay after, when its timer expires |
| `Rs485.StopTakesEffect` | 8250/src/8250_port.c:1467-1540 | a stop that no start follows has the driver off once the timer has expired, and for good |
| `Rs485.StaysOff` | 8250/src/8250_port.c:1467-1540 | without a start a driver that is off stays off |
| `Rs485.Uart.Em485Init` | 8250/src/8250_port.c:608-630 | the line is let go, reception on unless wanted throughout and then as it was, and no timer counts; the phases hold if and only if the transmit interrupt was off |
| `Rs485.Uart.StartTransmission` | 8250/src/8250_port.c:1611-1667 | the line is driven, with reception off unless wanted and then as it was, and either the delay before the data runs or the transmit interrupt is on, as it was if DMA takes the data; the phases hold |
| `Rs485.Uart.StopTransmission` | 8250/src/8250_port.c:1497-1540 | nothing happens before the last byte is out; then no more is sent and the line is let go, at once or after the delay; the phases hold |
| `Rs485.Uart.HandleStartTx` | 8250/src/8250_port.c:1634-1650 | a wanted expiry sets the data going on a driven line, a stale one changes nothing, and neither touches the line |
| `Rs485.Uart.HandleStopTx` | 8250/src/8250_port.c:1467-1486 | the line is let go exactly if the stop is still wanted, and never while data goes out |
| `IrqLoop.Interrupt` | 8250/src/8250_core.c:109-144 | stops at the first whole round of ports that all had nothing pending, or after exactly 514 rounds, and says whether any port was served |
| `IrqLoop.RoundCoversAll` | 8250/src/8250_core.c:109-144 | as many polls in a row as there are ports ask every port exactly once |

## Left out

- `assoc_array_gc`, `assoc_array_insert_set_object` and keys longer than a machine word.
- AssocArray.KeyedArray.Assign: stated for safe insertions only, which `AssocExact.InsertExact` shows to be exactly those that meet it.
- AssocArray.KeyedArray.ApplyEdit: requires the scripted tree to be an array, which every deletion, every safe insertion and clearing provides; the trees that unsafe insertions script are not arrays.
- RCU grace periods, memory barriers and readers that run during an edit: an edit is applied and cleaned up in one step.
- AIO: page migration, mmap, compat system calls, the limit on the number of requests, negative page counts at set-up, stores to the tail by userland, and whether a poll request eventually completes.
- Neighbour cache: lookups under RCU that race with a removal (a lookup and its reference are one step), what a handler does after it has given up the lock (the solicitation and its reference are part of its step), the queue of waiting packets, proxy entries, garbage collection lists and thresholds, the times at which timers expire (a pending timer may fire at any moment), netlink, proc, sysctl and notifiers, device hooks and the router and externally-learned flags.
- NeighTable.Table.Create: takes at most two to the 32 allocated entries, as the shift of a table cannot exceed the width of a hash.
- NeighCache.Cache.Create: likewise.
- bio: allocation, splitting, integrity, tracing and page handling.
- BioCopy.BioListCopyData: destination bytes are distinct and apart from the source, as the copy of overlapping memory is not what the source promises; copies that do not end have no result to state, and `BioTurns.EndsExactly` says which those are.
- async: the synchronous call when there is no memory for an entry, which never enters a list, and the wrap-around of 64-bit cookies.
- RS485: the register writes and FIFO resets, changes of the settings while the emulation is on, and the retry for UARTs that do not raise the interrupt (`UART_BUG_TXEN`).
- IRQ: linking and unlinking of ports; the ports answer arbitrarily.
- The rest of the repository: declarations, device probing and plumbing.
