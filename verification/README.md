# Models of a robot firmware framework

This project models the concurrent and stateful parts of a robot firmware framework and of
the FreeRTOS kernel it runs on, and proves what they promise. Code that changes things in
place is modelled by classes and loops; what it promises is proved about functions and runs.

| files | what they model |
|---|---|
| AvlShape, AvlHeap, AvlRuns | the AVL tree with parent links: trees as values, the same operations in place on linked nodes, and runs of operations |
| KernelList, TimerLists, Sequences | the kernel's circular list with an end marker, linked in both directions, and the two of them that the timers use |
| TickTime, TimerDaemon | the software timer daemon: two sorted lists and a tick count that wraps |
| EventGroups, EventRuns, Rendezvous | event groups: the walk that wakes tasks, runs of many tasks, and the meeting point |
| Completion | the one-shot completion over a semaphore, with timeouts that race |
| CanFifo, CanReceive, CanReceiveRuns | the CAN driver core, receiving |
| CanTransmit, CanTransmitRuns | the CAN driver core, sending |
| CanFilters | the CAN driver core, filter slots and hardware banks |
| RingBuffer | the lock-free ring of one producer and one consumer |
| Circular, MessageBuffer | the kernel's message buffer of one sender and one receiver |
| KernelQueue | the kernel queue, its storage and its lock counts |
| Checksums, Crc | CRC-8 and CRC-16 over tables |

Concurrency is modelled by steps that run without interruption: critical sections, sections
with the scheduler suspended, and single copies and stores of lock-free code. A state is
reached by any sequence of such steps.

Time in the timer daemon is an unbounded number of which the code sees the residue modulo
2^32. The daemon samples it at least once every 2^32 ticks, commands are less than that old,
and periods are from 1 to 2^32 - 1.

## What the code does not keep

- Deletion does not always leave the AVL tree balanced. `avl_tree_adjust` takes the double
  rotation when the left child's subtrees are level, and that fails if the right one of them
  is right-heavy. `AvlShape.AdjustBalance` and `AvlShape.DeleteBalance` give the exact
  condition, `AvlShape.DeleteForetold` reads it off the tree before the call, and
  `AvlRuns.TieReached` is a run that meets it. Insertions never do, as
  `AvlShape.InsertMeetsNoTie` and `AvlRuns.PutsOnly` say.
- The CAN receiver's free and used nodes are not constant: a failed `recv_msg` keeps its
  node. `CanReceiveRuns.RoomLeft` gives the exact count, and with
  `CanReceive.RxHandler.Receive` says when an overwriting receiver never returns.
- A CAN write with overwriting never returns when all nodes are in mailboxes.
  `CanTransmit.TxHandler.Write` and `CanTransmit.TxHandler.NodeForWrite` say that this is
  exactly when, and `CanTransmit.WriteStuck` gets there with one node and one mailbox.
- A filter reservation can be refused although a slot is free if a bank is listed twice;
  `CanFilters.FilterManager.Reserve` gives the exact condition and `CanFilters.SharedBank`
  gets there.
- `avl_tree_del_by_key` returns -1 through an unsigned byte, so callers see 255; and the
  16-bit node count reads 0 exactly for a tree of all 65536 keys, says
  `AvlHeap.AvlTree.CountWraps`; `AvlHeap.FullTree` builds it.
- With more than 127 tasks, posts from interrupts to a locked queue can fail the assertion on
  its lock count, which halts the system; `KernelQueue.Queue.SendFromIsr` says exactly when,
  and `KernelQueue.HaltReached` gets there.

## Model

| member | source | states |
|---|---|---|
| AvlHeap.LL | lib/source/data_struct/avltree.c:121-139 | The in-place rotation turns the linked nodes of a left-heavy subtree into exactly the rotated tree, with parent links and every cached depth right; no node outside changes |
| AvlHeap.RR | lib/source/data_struct/avltree.c:141-159 | The mirror image |
| AvlHeap.RL | lib/source/data_struct/avltree.c:161-165 | The double rotation leaves the linked nodes in the shape of the two tree rotations |
| AvlHeap.LR | lib/source/data_struct/avltree.c:167-171 | The mirror image |
| AvlHeap.AdjustNode | lib/source/data_struct/avltree.c:183-219 | The nodes are left in the shape of Adjust, linked to the parent they had, with exact depths |
| AvlShape.AdjustKeeps | lib/source/data_struct/avltree.c:183-219 | Adjusting any tree loses no node and keeps search order, whatever its balance |
| AvlShape.AdjustBalance | lib/source/data_struct/avltree.c:183-219 | For balanced siblings at most two apart, the result is balanced if and only if the tree is not the tie: left two higher, its subtrees level, and the right one of them right-heavy |
| AvlShape.FindFinds | lib/source/data_struct/avltree.c:384-406 | In a search tree the search ends at the node with the key if there is one |
| AvlHeap.AvlTree.QueryByKey | lib/source/data_struct/avltree.c:384-406 | The loop follows the links on the side of the key from the root and ends where the search of the tree ends; the nodes it visits are those on the path above, one by one, and the one it finds |
| AvlShape.InsertKeeps | lib/source/data_struct/avltree.c:315-347 | Inserting an absent key adds exactly its node and keeps search order |
| AvlShape.InsertBalance | lib/source/data_struct/avltree.c:349-370 | Inserting keeps balance and grows the height by at most one; a tree that grew has one side taller, so the tie is never reached |
| AvlShape.InsertMeetsNoTie | lib/source/data_struct/avltree.c:349-370 | In a balanced tree no adjustment on the way up of an insertion meets the tie |
| AvlHeap.AvlTree.Retrace | lib/source/data_struct/avltree.c:349-370 | The loop over parent links refreshes depths and adjusts every ancestor, giving the adjusted tree with links and depths right |
| AvlHeap.AvlTree.Attach | lib/source/data_struct/avltree.c:315-347 | The search hangs the new node under the node it ends at; on a duplicate key nothing at all changes |
| AvlHeap.AvlTree.Add | lib/source/data_struct/avltree.c:284-373 | 0 and the tree with the new node, linked, ordered, with exact depths and count; or -3 with every node as it was, exactly when the key is there |
| AvlHeap.AvlTree.CountWraps | lib/source/data_struct/avltree.c:284-373 | The node count is the number of nodes modulo 2^16: it reads 0 for a tree that is not empty exactly if it holds all 65536 keys |
| AvlHeap.FullTree | lib/source/data_struct/avltree.c:284-373 | Adding every key in turn leads to a tree of 65536 nodes whose count is 0 |
| AvlShape.DeleteKeeps | lib/source/data_struct/avltree.c:427-541 | Deletion removes the node of the key, no other, and keeps search order, in every case |
| AvlShape.DeleteBalance | lib/source/data_struct/avltree.c:427-541 | Deleting from a balanced tree leaves it balanced if and only if no adjustment on the way up meets the tie |
| AvlShape.DeleteForetold | lib/source/data_struct/avltree.c:427-541 | Whether the tree will still be balanced, and whether it will be lower, read off the heights in the tree before the deletion |
| AvlShape.DeleteFound | lib/source/data_struct/avltree.c:427-541 | Deleting under a path is the ancestors adjusted around the subtree without its root |
| AvlShape.PathFits | lib/source/data_struct/avltree.c:384-406 | A path from the root to a subtree and the height of the subtree together are no more than the height of the tree |
| AvlHeap.SpliceDirectLeft | lib/source/data_struct/avltree.c:449-503 | A left child without a right subtree takes the place of the deleted node: links, depths and nothing else |
| AvlHeap.TakeOutMax | lib/source/data_struct/avltree.c:451-464 | The greatest node of the left subtree is unhooked, its left subtree hung in its stead |
| AvlHeap.SpliceDeepLeft | lib/source/data_struct/avltree.c:449-503 | That node takes the place of the deleted one, and what is left is the tree around the hole still to be retraced |
| AvlHeap.Detach | lib/source/data_struct/avltree.c:447-514 | In the leaf, direct and deep cases the nodes are left as the tree without the deleted root, waiting to be retraced |
| AvlHeap.AvlTree.DelByKey | lib/source/data_struct/avltree.c:427-541 | 0 and the tree without the key, linked, ordered, with exact depths and count; or 255 with every node as it was, exactly when the key is absent |
| AvlRuns.RunKeeps | lib/source/data_struct/avltree.c:284-541 | Over any run of insertions and deletions the tree is a search tree of exactly the keys put in and not deleted since |
| AvlRuns.RunBalance | lib/source/data_struct/avltree.c:183-219 | A run in which no adjustment meets the tie, which the tree before each call tells, keeps balance |
| AvlRuns.PutsOnly | lib/source/data_struct/avltree.c:284-373 | No adjustment of any insertion meets the tie, from a balanced tree, however many insertions there are |
| AvlRuns.BalancedIsBig | lib/source/data_struct/avltree.c:183-219 | A balanced tree of height h has at least Fib(h + 2) - 1 nodes |
| AvlRuns.LookupBound | lib/source/data_struct/avltree.c:384-406 | After a run without ties the path a lookup takes, with the node it finds, has at most h nodes, where Fib(h + 2) is at most one more than the number of keys |
| AvlRuns.LookupBoundAfterPuts | lib/source/data_struct/avltree.c:284-406 | The same bound after any insertions |
| AvlRuns.TieReached | lib/source/data_struct/avltree.c:183-219 | Eight insertions and one deletion lead from the empty tree to a tree out of balance |
| KernelList.List.constructor | platform/osal/freertos/FreeRTOS/list.c:49-86 | An empty ring of the end marker alone |
| KernelList.List.FindPlace | platform/osal/freertos/FreeRTOS/list.c:139-198 | The walk ends at the last item whose value is not above the new one, also for the greatest value, which is put at the end |
| KernelList.List.Insert | platform/osal/freertos/FreeRTOS/list.c:139-211 | The doubly linked ring holds the item at the place of its value, after its equals, and is otherwise the same; a sorted list stays sorted |
| KernelList.List.InsertEnd | platform/osal/freertos/FreeRTOS/list.c:105-136 | The item is linked in just before the one the index points at |
| KernelList.List.Remove | platform/osal/freertos/FreeRTOS/list.c:215-245 | The ring without the item, still sorted if it was, the index moved to the item before if it pointed there and else left, the container cleared, the new count returned |
| TimerLists.TwoLists.Put | platform/osal/freertos/FreeRTOS/list.c:139-211 | Inserting into one of two linked lists puts the item at the place of its value and leaves the other; both stay sorted, linked in both directions and without a common item |
| TimerLists.TwoLists.NoneOnBoth | platform/osal/freertos/FreeRTOS/list.c:203-245 | No item is on both lists, since an item knows its list |
| TimerLists.TwoLists.Take | platform/osal/freertos/FreeRTOS/list.c:215-245 | Removing an item from its list leaves the other; both stay as before otherwise |
| TimerLists.TwoLists.Switch | platform/osal/freertos/FreeRTOS/timers.c:1105-1108 | The two lists change their parts |
| Sequences.InsertSorted | platform/osal/freertos/FreeRTOS/list.c:139-198 | Insertion keeps the list sorted and comes after all equal values |
| TickTime.DecideIsRight | platform/osal/freertos/FreeRTOS/timers.c:894-935 | The comparisons of wrapped tick counts decide what unbounded time says: due now, due in this epoch, or due in the next |
| TickTime.WithinAWrap | platform/osal/freertos/FreeRTOS/timers.c:871-891 | Within one wrap, the count went down exactly when the epoch changed |
| TimerDaemon.Daemon.InsertTimer | platform/osal/freertos/FreeRTOS/timers.c:894-935 | Refused exactly when due; otherwise the timer is on the list of its epoch, both lists still sorted, disjoint and of one epoch each |
| TimerDaemon.Daemon.Reload | platform/osal/freertos/FreeRTOS/timers.c:699-715 | The loop ends at the first expiry after now, with one callback for each expiry it passed |
| TimerDaemon.Daemon.ProcessExpired | platform/osal/freertos/FreeRTOS/timers.c:718-745 | The head leaves, one callback for every expiry passed; it is listed again for a later one exactly if it reloads |
| TimerDaemon.Daemon.ExpireHead | platform/osal/freertos/FreeRTOS/timers.c:1086-1104 | One turn of the switching loop at the end of an epoch: the head leaves, its reload goes to the overflow list, and the current list shrinks |
| TimerDaemon.Daemon.SwitchLists | platform/osal/freertos/FreeRTOS/timers.c:1086-1108 | The loop ends, since no reload re-enters the current list, and swaps the lists once it is empty |
| TimerDaemon.Daemon.SampleTimeNow | platform/osal/freertos/FreeRTOS/timers.c:871-891 | The lists are switched exactly when the tick count entered the next epoch |
| TimerDaemon.Daemon.GetNextExpireTime | platform/osal/freertos/FreeRTOS/timers.c:844-868 | The least tick value on the current list, which is that of its head, or 0 for an empty list |
| TimerDaemon.Daemon.SleepTime | platform/osal/freertos/FreeRTOS/timers.c:781-845 | Nothing is due before the daemon wakes, and it wakes exactly when the tick counter shows the value at the head of the list, or 0 for an empty one; for ever exactly if both lists are empty |
| TimerDaemon.NothingDue | platform/osal/freertos/FreeRTOS/timers.c:782-841 | When the head is not due nothing is, and none is due before the time the daemon sleeps |
| TimerDaemon.Daemon.ProcessTimerOrBlock | platform/osal/freertos/FreeRTOS/timers.c:782-841 | It deals with one due timer, or blocks with nothing due and no later than the next expiry; it waits without limit only if no timer is listed |
| TimerDaemon.Daemon.CatchUp | platform/osal/freertos/FreeRTOS/timers.c:748-779 | While time stands still the daemon comes to block with nothing due before it wakes |
| TimerDaemon.Daemon.StartTimer | platform/osal/freertos/FreeRTOS/timers.c:999-1028 | A start or reset counts from the time it was sent; an expiry already passed has its callbacks at once, and a one-shot is then inactive |
| TimerDaemon.Daemon.ChangeTimerPeriod | platform/osal/freertos/FreeRTOS/timers.c:1036-1049 | The timer starts over from now with its new period |
| TimerDaemon.Daemon.ProcessCommand | platform/osal/freertos/FreeRTOS/timers.c:938-1083 | The timer comes off its list first; what each command leaves of start, period, callbacks and active, with active meaning listed; whether the timer reloads, and all other timers, stay as they are |
| TimerDaemon.Daemon.ProcessReceivedCommands | platform/osal/freertos/FreeRTOS/timers.c:938-1083 | The last message to name a timer stands: after a stop or delete it is inactive and on no list; after a start or a change of period it counts from the time sent or from now, and is listed until, as a one-shot, it has run once. Only changes of period set periods, the last one wins; no callback comes early; timers not named go on |
| TimerDaemon.WentOn | platform/osal/freertos/FreeRTOS/timers.c:938-1083 | What two batches of messages make of all timers, one after the other, is what the joined batch makes of them |
| TimerDaemon.Daemon.TimerTask | platform/osal/freertos/FreeRTOS/timers.c:748-779 | Over any number of turns and wraps both lists stay sorted, without a timer twice, one for this epoch's expiries and one for the next. Of all messages sent the last to name a timer stands; timers not named keep their start and period, those that reload stay listed, one-shots run at most once and then leave; no callback of any timer comes before its expiry |
| TimerDaemon.Daemon.FiredExactly | platform/osal/freertos/FreeRTOS/timers.c:699-745 | Once caught up with time N, a timer started at S with period P has had (N - S) / P callbacks, the k-th not before S + kP |
| TimerDaemon.Daemon.TimerTaskCaughtUp | platform/osal/freertos/FreeRTOS/timers.c:748-779 | Whatever the turns brought, every timer has run exactly as often as it should since the last message that started it, or, if none named it and it was listed, since its start before: one that reloads once per period, a one-shot once if its period has passed and else not at all; none early. A timer stopped or deleted last is inactive and on no list |
| EventGroups.EventGroup.SetBits | platform/osal/freertos/FreeRTOS/event_groups.c:547-644 | A bit stays unless a task with clear-on-exit waits for it whose condition, all or any of its bits, is met by old and new bits together; the tasks whose condition is met, and no others, leave the list, each with those bits as its item |
| EventGroups.EventGroup.WaitBits | platform/osal/freertos/FreeRTOS/event_groups.c:312-402 | If the condition is met the old bits are returned, and the wanted ones go exactly with clear-on-exit; otherwise the task joins the list with its wants and options in its item, or returns the bits if it may not block |
| EventGroups.EventGroup.Sync | platform/osal/freertos/FreeRTOS/event_groups.c:205-246 | The bits are set first; the last party to come clears the mask and returns at once, others block or return |
| EventGroups.EventGroup.Finish | platform/osal/freertos/FreeRTOS/event_groups.c:404-459 | A woken task returns the bits in its item and takes none; a task that timed out returns the current bits and takes its own exactly if its condition holds and it clears on exit |
| EventGroups.EventGroup.ClearBits | platform/osal/freertos/FreeRTOS/event_groups.c:472-501 | The old bits are returned and the named ones cleared |
| EventRuns.SetWakes | platform/osal/freertos/FreeRTOS/event_groups.c:547-644 | A waiter is woken by a set if and only if its condition holds on all bits together, even if another woken task clears them; its answer is those bits |
| EventRuns.SetLeaves | platform/osal/freertos/FreeRTOS/event_groups.c:547-644 | After a set a bit is there if and only if it was set before or now and no call of a waiting task takes it that clears on exit and whose condition is met |
| EventRuns.RunKeeps | platform/osal/freertos/FreeRTOS/event_groups.c:185-644 | Every step of set, clear, wait, sync, timeout and return keeps: no blocked task's condition holds, woken tasks hold bits that met theirs |
| EventRuns.ReachedIsQuiet | platform/osal/freertos/FreeRTOS/event_groups.c:185-644 | In every state reached from an empty group no blocked task's condition holds on the current bits |
| EventRuns.ItemSurvives | platform/osal/freertos/FreeRTOS/tasks.c:5434-5503 | A woken task keeps its snapshot until it goes on, whatever other tasks do |
| EventRuns.AnswerMeets | platform/osal/freertos/FreeRTOS/event_groups.c:404-459 | A call that set bits ended returns bits that meet its condition; one that timed out returns the current bits |
| EventRuns.WaitTakesOrBlocks | platform/osal/freertos/FreeRTOS/event_groups.c:312-402 | A wait whose condition is met goes straight on and takes its bits exactly if it clears on exit; else the task is listed, if it may block, and nothing else changes |
| Rendezvous.LastToCome | platform/osal/freertos/FreeRTOS/event_groups.c:207-211 | The mask is complete with a party's own bits if and only if all other parties wait |
| Rendezvous.PartyCompletes | platform/osal/freertos/FreeRTOS/event_groups.c:207-219 | The last party wakes all others in one step and no bit of the mask is left |
| Rendezvous.NoneLeavesEarly | platform/osal/freertos/FreeRTOS/event_groups.c:185-309 | Over every run, no party leaves a round that another has not entered, and none gets more than one round ahead |
| Rendezvous.ArrivalsEnter | platform/osal/freertos/FreeRTOS/event_groups.c:205-246 | A party enters one round for every call it makes |
| Rendezvous.RoundsStartClear | platform/osal/freertos/FreeRTOS/event_groups.c:185-309 | While all parties have entered equally many rounds the mask is clear |
| Rendezvous.LastReleasesAll | platform/osal/freertos/FreeRTOS/event_groups.c:207-237 | A party goes straight on exactly if all others wait, who are then all released; else it waits |
| Completion.RunKeeps | lib/source/sync/completion.c:67-183 | Over any interleaving, accepted done calls are completions taken plus one if one is pending; none is lost or counts twice |
| Completion.BlockedHasToken | lib/source/sync/completion.c:107-109 | A blocked waiter finds a token exactly if the completion is done |
| Completion.TimeoutRace | lib/source/sync/completion.c:107-124 | A wait whose semaphore timed out reports a timeout exactly if no done was accepted until it looks again |
| Completion.DoneRefused | lib/source/sync/completion.c:127-183 | A done is refused exactly if a completion is pending |
| Completion.DrainEnds | lib/source/sync/completion.c:26-33 | The drain loop ends after at most three tries, whatever done callers do meanwhile |
| Completion.OneShot.StartWait | lib/source/sync/completion.c:67-105 | The first critical section: a completion that is done is taken at once, else a zero timeout returns with nothing changed, else the task blocks; the only waiter is never refused as busy |
| Completion.OneShot.ResumeWait | lib/source/sync/completion.c:111-124 | The second critical section reports a timeout exactly if the semaphore wait did and the status is not done, and else takes the completion; the status is reset and tokens stay |
| Completion.OneShot.DrainStep | lib/source/sync/completion.c:26-33 | One turn of the drain loop: a token goes, or with none left the wait returns OK |
| Completion.OneShot.DoneOneShot | lib/source/sync/completion.c:127-183 | BUSY with nothing changed exactly if a completion is pending; else OK, done, the waiter released and one token there |
| Completion.OneShot.ComeBack | lib/source/sync/completion.c:107-109 | What the semaphore wait does to the token |
| CanReceive.RxHandler.GetFree | lib/drivers/src/peripheral/can/hal_can_core.c:464-556 | A free node, or with overwriting that of the oldest message, which leaves its filter's list and count; stuck exactly if overwriting with neither |
| CanReceive.RxHandler.TakeNode | lib/drivers/src/peripheral/can/hal_can_core.c:464-498 | The node is the first free one, or with overwriting the first used one; without either the call refuses, or with overwriting never returns |
| CanReceive.RxHandler.AddUsed | lib/drivers/src/peripheral/can/hal_can_core.c:628-637 | The node joins the used list and the list and count of its filter |
| CanReceive.RxHandler.Receive | lib/drivers/src/peripheral/can/hal_can_core.c:1254-1291 | With a node to be had, free or that of the oldest message, a frame of a known filter becomes the newest message and is counted; any other counts as failed and gives the node back, or loses it when the reception failed. Every overflow is counted; an overwriting receiver is stuck exactly when all nodes are lost |
| CanReceive.RxHandler.GetUsed | lib/drivers/src/peripheral/can/hal_can_core.c:654-675 | The head of the filter's list is the first of its messages on the used list |
| CanReceive.RxHandler.Read | lib/drivers/src/peripheral/can/hal_can_core.c:744-780 | Empty exactly if the filter has no pending message; otherwise its first one is read, the others keep their order and its node is free |
| CanReceive.OldestOf | lib/drivers/src/peripheral/can/hal_can_core.c:654-675 | A filter's share of the used list begins with the first of its messages there |
| CanReceiveRuns.RunKeeps | lib/drivers/src/peripheral/can/hal_can_core.c:1250-1291 | Over any run, pending messages are in order of arrival, filters are read in turn, and nodes and counters add up |
| CanReceiveRuns.EachFilterInTurn | lib/drivers/src/peripheral/can/hal_can_core.c:654-780 | What has left of a filter's messages is always a prefix of those accepted; without overwriting all of it was read |
| CanReceiveRuns.KeptAreDue | lib/drivers/src/peripheral/can/hal_can_core.c:1250-1291 | What a run accepts is exactly the frames that came for a known filter while a node was free or could be taken from the oldest message, in order |
| CanReceiveRuns.ReadTakesFirst | lib/drivers/src/peripheral/can/hal_can_core.c:744-780 | A read in a run takes the first pending message of its filter and changes no other, and does nothing exactly if there is none |
| CanReceiveRuns.DropsTheOldest | lib/drivers/src/peripheral/can/hal_can_core.c:475-483 | A message is dropped exactly when there is overwriting and no free node, and it is the oldest of all pending |
| CanReceiveRuns.RoomLeft | lib/drivers/src/peripheral/can/hal_can_core.c:1286-1289 | Free and used nodes are all nodes less failed receptions; with overwriting the driver waits for ever exactly when all have failed |
| CanReceiveRuns.FailureLosesNode | lib/drivers/src/peripheral/can/hal_can_core.c:1286-1289 | One failed reception on one node leaves no node |
| CanReceiveRuns.SameBox | lib/drivers/src/peripheral/can/hal_can_core.c:1254-1291 | The step of the run is the step the driver implements |
| CanTransmit.TxHandler.GetFree | lib/drivers/src/peripheral/can/hal_can_core.c:567-594 | The node obtained never belongs to a mailbox, so overwriting never recycles a message in transmission; stuck exactly if overwriting with no node free or waiting |
| CanTransmit.TxHandler.Put | lib/drivers/src/peripheral/can/hal_can_core.c:857-895 | The first messages that fit wait, or with overwriting the last ones do; the failed and the overflow counter each grow by the number of messages lost, and no other; without any node an overwriting call is stuck |
| CanTransmit.TxHandler.Write | lib/drivers/src/peripheral/can/hal_can_core.c:857-900 | What waits after the loop, which of it the scheduler put into which mailbox, the nodes still free and all counters; stuck exactly if overwriting with every node in a busy mailbox |
| CanTransmit.TxHandler.Schedule | lib/drivers/src/peripheral/can/hal_can_core.c:788-847 | The oldest waiting messages go to the idle mailboxes the hardware chose, each alone in its own, in order, and no other mailbox changes; it ends, and only with none waiting, none idle or a refusal, which is counted exactly if the mailboxes were full |
| CanTransmit.EachInItsBox | lib/drivers/src/peripheral/can/hal_can_core.c:808-833 | Each message taken is alone in its mailbox, which owns it; no other mailbox changes |
| CanTransmit.ChosenApart | lib/drivers/src/peripheral/can/hal_can_core.c:808-833 | No mailbox is chosen twice in one run of the scheduler |
| CanTransmit.TxHandler.Launch | lib/drivers/src/peripheral/can/hal_can_core.c:808-833 | One message from the head of the list into an idle mailbox, keeping every node in one place |
| CanTransmit.TxHandler.SendDone | lib/drivers/src/peripheral/can/hal_can_core.c:1292-1305 | The node of the mailbox becomes free without an owner, the mailbox idle, the message is counted as sent, and the scheduler runs |
| CanTransmit.TxHandler.Retransmit | lib/drivers/src/peripheral/can/hal_can_core.c:908-926 | The message of the mailbox goes before all that wait, the mailbox is idle, and the scheduler runs |
| CanTransmit.TxHandler.Release | lib/drivers/src/peripheral/can/hal_can_core.c:604-619 | Node and mailbox change places as the bookkeeping demands |
| CanTransmit.TxHandler.NodeForWrite | lib/drivers/src/peripheral/can/hal_can_core.c:475-496 | In every reachable state an overwriting write has no node exactly if every node is in a busy mailbox, which more nodes than mailboxes rule out |
| CanTransmit.WriteStuck | lib/drivers/src/peripheral/can/hal_can_core.c:475-496 | With one node and one mailbox, the second of two overwriting writes never returns |
| CanTransmitRuns.Run | lib/drivers/src/peripheral/can/hal_can_core.c:788-926 | Over any run of writes, completions and retransmissions: messages taken are those sent, overwritten, waiting and in mailboxes, each in one place, with the counters right; the frames seen going into mailboxes, sent, overwritten and coming back are those of the messages in the logs; when a message first goes into a mailbox all taken before it have been in one or were overwritten; and while nothing was overwritten or came back, the mailboxes got the frames in the order taken, without gaps. Each event that can happen takes effect: a write takes the frames that fit or, with overwriting, all; a mailbox that is done sends its frame, a failed one gives it back; and the scheduler goes as far as it can |
| CanTransmitRuns.Step | lib/drivers/src/peripheral/can/hal_can_core.c:788-926 | One event: what is seen of it is what the driver took, what the chosen mailboxes hold and what left a mailbox, and the story grows by just that |
| CanTransmitRuns.Scheduled | lib/drivers/src/peripheral/can/hal_can_core.c:788-847 | After the scheduler the log of loads has grown by the frames in the mailboxes chosen, in order |
| CanTransmitRuns.Sums | lib/drivers/src/peripheral/can/hal_can_core.c:567-619 | Messages taken are as many as sent, overwritten, waiting and in busy mailboxes together |
| CanTransmitRuns.FirstComeFirstServed | lib/drivers/src/peripheral/can/hal_can_core.c:808-833 | The order that the invariant of a story implies, and that Run states of every run: no message is passed over the first time unless it was overwritten |
| CanTransmitRuns.InTheOrderTaken | lib/drivers/src/peripheral/can/hal_can_core.c:808-833 | Without retransmission or overwriting, the frames seen going into mailboxes are a prefix of those taken |
| CanTransmitRuns.LaunchKeeps | lib/drivers/src/peripheral/can/hal_can_core.c:808-833 | Taking the head of the waiting messages into an empty mailbox keeps the order and every message in its one place |
| CanTransmitRuns.OverwriteKeeps | lib/drivers/src/peripheral/can/hal_can_core.c:475-483 | So does overwriting the head |
| CanTransmitRuns.ReturnKeeps | lib/drivers/src/peripheral/can/hal_can_core.c:908-926 | So does the return of a message to the front of those that wait |
| CanFilters.FilterManager.Reserve | lib/drivers/src/peripheral/can/hal_can_core.c:64-124 | Refused exactly if all slots or all listed banks are used; with distinct banks exactly if all slots are. Otherwise the lowest free slot gets the first free bank of the list, and nothing else changes |
| CanFilters.BankForSlot | lib/drivers/src/peripheral/can/hal_can_core.c:84-101 | With distinct banks, a free slot means a free bank |
| CanFilters.SharedBank | lib/drivers/src/peripheral/can/hal_can_core.c:84-101 | With one bank listed twice, a second allocation is refused although a slot is free |
| CanFilters.FilterManager.FindSlot | lib/drivers/src/peripheral/can/hal_can_core.c:30-42 | The slot found is the one that has the bank, and -1 exactly if none has |
| CanFilters.FilterManager.Release | lib/drivers/src/peripheral/can/hal_can_core.c:47-58 | Slot and bank are free again and the map stays one-to-one |
| CanFilters.FilterManager.Alloc | lib/drivers/src/peripheral/can/hal_can_core.c:1086-1123 | On success the lowest free slot has the first free bank listed and every other slot and bank is as before; when the hardware refuses, the allocator is exactly as before |
| CanFilters.FilterManager.Free | lib/drivers/src/peripheral/can/hal_can_core.c:1126-1169 | Refused for bad handles, inactive filters or unread messages, and if the hardware refuses, each exactly then and with nothing changed; otherwise the slot and its bank are free and all others as before |
| RingBuffer.DividesWrap | lib/source/data_struct/ringbuffer.c:6-23 | A capacity that is a power of two divides the range of the positions |
| RingBuffer.SlotIs | lib/source/data_struct/ringbuffer.c:65-83 | The two-part copy puts item j at position plus j modulo the capacity, also after positions have wrapped |
| RingBuffer.Ringbuf.StartIn | lib/source/data_struct/ringbuffer.c:85-97 | The producer accepts what there is room for by the positions it loaded |
| RingBuffer.Ringbuf.CopyIn | lib/source/data_struct/ringbuffer.c:65-83 | Copying an item disturbs nothing the consumer may read |
| RingBuffer.Ringbuf.Publish | lib/source/data_struct/ringbuffer.c:99-102 | The accepted items become visible, in order |
| RingBuffer.Ringbuf.StartOut | lib/source/data_struct/ringbuffer.c:137-148 | The consumer takes no more than what it saw published |
| RingBuffer.Ringbuf.CopyOut | lib/source/data_struct/ringbuffer.c:105-123 | The item read is the next one put in |
| RingBuffer.Ringbuf.Consume | lib/source/data_struct/ringbuffer.c:125-135 | The items taken are removed, in order |
| RingBuffer.Ringbuf.In | lib/source/data_struct/ringbuffer.c:85-103 | A whole call: what there is room for is appended |
| RingBuffer.Ringbuf.Out | lib/source/data_struct/ringbuffer.c:125-152 | A whole call: the oldest items come out |
| RingBuffer.Ringbuf.Interleave | lib/source/data_struct/ringbuffer.c:65-152 | However the steps of the two sides interleave, items taken are a prefix of items put and never more than the capacity is in between; and each step that is due takes effect |
| MessageBuffer.EncodeTells | platform/osal/freertos/FreeRTOS/stream_buffer.c:1000-1050 | The stored bytes determine the messages |
| MessageBuffer.PrefixHoldsLength | platform/osal/freertos/FreeRTOS/stream_buffer.c:1276-1300 | The length read back is the length written |
| MessageBuffer.Buffer.BytesInBuffer | platform/osal/freertos/FreeRTOS/stream_buffer.c:1566-1584 | The number of stored bytes, from the two indices |
| MessageBuffer.Buffer.SpacesAvailable | platform/osal/freertos/FreeRTOS/stream_buffer.c:754-788 | With the receiver at rest, what is free, one byte always being left |
| MessageBuffer.Buffer.Agree | platform/osal/freertos/FreeRTOS/stream_buffer.c:754-788 | However the receiver moves between the looks at the tail, the space found is what was free when it was worked out and no more than is free now |
| MessageBuffer.Buffer.StartSend | platform/osal/freertos/FreeRTOS/stream_buffer.c:1000-1031 | A message is begun exactly if it fits whole with the four bytes of its length, least significant first, into the space seen, and then it fits now |
| MessageBuffer.Buffer.WriteByte | platform/osal/freertos/FreeRTOS/stream_buffer.c:1476-1519 | Writing disturbs no stored byte |
| MessageBuffer.Buffer.FinishSend | platform/osal/freertos/FreeRTOS/stream_buffer.c:1039-1050 | The message joins the pending ones as a whole; an empty one leaves no trace |
| MessageBuffer.Buffer.StartReceive | platform/osal/freertos/FreeRTOS/stream_buffer.c:1132-1144 | There is something to receive exactly if a message is pending |
| MessageBuffer.Buffer.ReadByte | platform/osal/freertos/FreeRTOS/stream_buffer.c:1522-1563 | The bytes read are those of the oldest message |
| MessageBuffer.Buffer.FinishReceive | platform/osal/freertos/FreeRTOS/stream_buffer.c:1276-1328 | Exactly the oldest message is received; one too long for the receiver's room stays where it is |
| MessageBuffer.Buffer.Interleave | platform/osal/freertos/FreeRTOS/stream_buffer.c:1000-1584 | However the steps interleave, the messages received are the first of those sent, whole and in order; and each step that is due takes effect |
| KernelQueue.Queue.CopyDataTo | platform/osal/freertos/FreeRTOS/queue.c:2390-2470 | Sending to the back appends, to the front prepends, overwriting replaces |
| KernelQueue.Queue.CopyDataFrom | platform/osal/freertos/FreeRTOS/queue.c:2473-2491 | The slot after the one read last holds the oldest item |
| KernelQueue.Queue.Send | platform/osal/freertos/FreeRTOS/queue.c:939-1100 | Refused exactly when full and not overwriting; the first waiting receiver wakes |
| KernelQueue.Queue.SendFromIsr | platform/osal/freertos/FreeRTOS/queue.c:1157-1326 | The same, but while the queue is locked the post is only counted; the assertion on the count fails exactly if the lesser of the posts and the tasks would pass 127 |
| KernelQueue.HaltReached | platform/osal/freertos/FreeRTOS/queue.c:277-286 | With 200 tasks the 128th post to a locked queue fails the assertion |
| KernelQueue.Queue.Receive | platform/osal/freertos/FreeRTOS/queue.c:1502-1565 | The oldest item is taken and the first waiting sender wakes |
| KernelQueue.Queue.ReceiveFromIsr | platform/osal/freertos/FreeRTOS/queue.c:2035-2132 | The same, counted while the queue is locked, with the same exact condition |
| KernelQueue.Queue.Peek | platform/osal/freertos/FreeRTOS/queue.c:1902-1946 | The oldest item is seen and nothing of the contents changes |
| KernelQueue.Queue.Reset | platform/osal/freertos/FreeRTOS/queue.c:303-371 | The queue is empty and unlocked, and one sender wakes |
| KernelQueue.Queue.Lock | platform/osal/freertos/FreeRTOS/queue.c:258-270 | Counting starts |
| KernelQueue.Queue.Unlock | platform/osal/freertos/FreeRTOS/queue.c:2494-2611 | Exactly min(posts while locked, receivers waiting) receivers wake, although the count is capped at the number of tasks; and so for senders |
| KernelQueue.Queue.Block | platform/osal/freertos/FreeRTOS/tasks.c:5243-5269 | The task waits behind all of its own or a greater priority and before the others, who keep their order |
| Crc.TableIs8 | lib/source/algorithm/protocol/crc.c:32-45 | Every entry of the CRC-8 table is eight steps of polynomial division |
| Crc.TableIs16 | lib/source/algorithm/protocol/crc.c:47-64 | Every entry of the CRC-16 table is eight steps of polynomial division |
| Crc.GetCrc8 | lib/source/algorithm/protocol/crc.c:71-80 | The table-driven checksum is the division of the message step by step |
| Crc.GetCrc16 | lib/source/algorithm/protocol/crc.c:115-128 | The same for CRC-16 |
| Crc.Verify8 | lib/source/algorithm/protocol/crc.c:87-94 | Accepts exactly the frames above two bytes that end in their checksum, which are those that leave no remainder when their first eight bits are complemented |
| Crc.Verify16 | lib/source/algorithm/protocol/crc.c:135-145 | The same for CRC-16, low byte first, with the first sixteen bits complemented |
| Crc.Append8 | lib/source/algorithm/protocol/crc.c:101-108 | Makes an accepted frame, without remainder once its first eight bits are complemented, and changes only its last byte; frames of up to two bytes stay |
| Crc.Append16 | lib/source/algorithm/protocol/crc.c:152-162 | The same for CRC-16: it changes only the last two bytes |
| Crc.NoRemainder8 | lib/source/algorithm/protocol/crc.c:87-94 | A frame above two bytes is accepted exactly if dividing all of it, checksum included, leaves no remainder |
| Crc.NoRemainder16 | lib/source/algorithm/protocol/crc.c:135-145 | The same for CRC-16 |
| Crc.AcceptedIs8 | lib/source/algorithm/protocol/crc.c:31-94 | Starting from all ones is complementing the first byte: a frame above two bytes is accepted exactly if so changed it leaves no remainder when divided from zero |
| Crc.AcceptedIs16 | lib/source/algorithm/protocol/crc.c:47-145 | The same for CRC-16 and the first two bytes |
| Crc.DetectsBurst8 | lib/source/algorithm/protocol/crc.c:71-94 | Two accepted frames of one length never differ only within eight bits in a row, wherever they begin, checksum included |
| Crc.DetectsBurst16 | lib/source/algorithm/protocol/crc.c:115-145 | For CRC-16 the same of sixteen bits in a row, which may touch three bytes |
| Crc.DetectsOneByte8 | lib/source/algorithm/protocol/crc.c:71-94 | Two accepted frames of one length never differ in just one byte, checksum included |
| Crc.DetectsTwoBytes16 | lib/source/algorithm/protocol/crc.c:115-145 | Two accepted frames of one length never differ only within two adjacent bytes, checksum included |

## Left out

- AVL tree: elements and who owns them, the hash function, failing allocation, clearing and destroying a tree; a node stands for its element, and a node's key is given.
- Timers: changing the reload mode of a running timer, and what callbacks do except through later commands.
- TimerDaemon.Daemon.ProcessCommand: the memory of a deleted timer is not freed, so the timer stays an object that no list holds.
- Timers: the daemon's lists are sequences of values, changed by the insertion and removal that KernelList and TimerLists prove of linked items; the two models are not joined in one.
- Timers: blocking itself; the daemon's turns are given by the times at which it samples the tick count and the messages it finds.
- Event groups: task priorities, the deletion of a group, and calls from interrupts, which are deferred to the timer daemon; words are sets of bit positions.
- Rendezvous.PartyCompletes: parties use no timeout; a party that timed out would leave its bit set for the others.
- Completion: several waiters at once, the accelerated backend, and creating and deleting the semaphore.
- CAN driver: each driver operation is one step, user callbacks are left out, and changes of filters happen while nothing is received.
- CAN driver: the fields of frames but the identifier and data, bus status, and opening and closing the device; error counters do not wrap.
- CanTransmit.TxHandler.Schedule: a successful send is taken to name an idle mailbox, and its answers are given beforehand.
- CanTransmit.TxHandler.Put: the scan of a null message pointer and the copying of payloads into containers are one assignment.
- CanFilters: the bitmaps are sequences of booleans; the two compare-and-set retries inside the critical section cannot fail and are left out.
- RingBuffer: items are copied whole, so item sizes and byte offsets are left out, as are the linear-span functions and allocation with rounding up; masking with capacity - 1 is the remainder.
- MessageBuffer: stream and batching modes, trigger levels, notifications and blocking; lengths are four bytes, least significant first; the buffer is below 2^31 bytes.
- KernelQueue: semaphores and mutexes, priority inheritance, queue sets, and the retry loops around blocking; items are copied whole.
- KernelQueue.Queue.Block: the priorities of tasks do not change.
- C11 memory orders: steps are sequentially consistent, in the order of the acquire and release points.
- Crc: null pointers.
- Bitmaps, OSAL wrappers, the device registry, serial and board support, PID control and the packet protocol.
