# drogue-async, modelled and proved

drogue-async is an async executor for Cortex-M. This project models three of its parts and
proves what they are for.

**The freeable heap** (`src/alloc/cortex_m/alloc/`). Free memory is an address-sorted linked
list of holes whose nodes lie inside the free bytes. The files build up as follows.

- `Words.dfy`, `Layouts.dfy`: machine words, masks and wrapped sums, and the layout
  functions on top of them. The word width is left open (32 on Cortex-M), because masks and sums
  mean the same at any width; the alignment of a hole header is the four bytes of Cortex-M.
- `Holes.dfy`, `FirstFit.dfy`, `Refree.dfy`: hole lists as values. The key fact is
  `Holes.Canonical`: two well-formed lists with the same free bytes are equal.
- `Chains.dfy`, `HoleLists.dfy`: the list in memory, edited in place through a cursor. A word
  of memory is an array cell, and the list of holes is a ghost field.
- `Heaps.dfy`: runs of allocations and legal frees, and the heap as a class whose methods
  take the steps of those runs.

**The executor and the join protocol** (`src/executor.rs`, `src/task.rs`).

- `Programs.dfy`: task bodies (defer, delay, spawn with moved handles, await, branch, endless
  loop, return) and their direct evaluation; a body that never ends has no value.
- `Machine.dfy`: `run`, `do_poll` and the futures as a machine of single stores and critical
  sections, with interrupts and calls from outside between any two of them.
- `Ownership.dfy`, `Protocol.dfy`: the invariant, kept by every step. It carries, per task, the
  value its body evaluates to, and a rank that grows from the holder of a handle to the task
  behind it.
- `Progress.dfy`, `Paths.dfy`, `Termination.dfy`: what follows for whole runs.
- `Doings.dfy`: what a body does, step by step, and that a run does just that.
- `Capacity.dfy`: when no run panics.
- `Executors.dfy`: the same operations as code with loops over mutable state, which takes
  exactly the machine's steps, and whose `Run` returns.

**The async timer** (`examples/stm32l4/src/async_timer.rs`), eight delays on one one-shot timer.

- `AsyncTimers.dfy`: slots, deadlines and arming, as values and as a class.
- `DelayRuns.dfy`: runs with numbered delays: who owns a slot, whose waker is fired, and that
  every delay ends.
- `DelayClocks.dfy`: runs in which time passes, and how long a delay lasts.
- `TimedMachine.dfy`, `TimedRuns.dfy`: the executor together with this timer. Its runs are runs
  of the machine, whose theorems so apply, and `run` returns with no interrupt but the timer's
  own.

## Where properties fail

- `Heap::new` compares the size with a header before it aligns the start of the memory. Eight
  bytes at address 1 pass the check, and the header then reaches past them
  (`Heaps.StartMisfit`). The heap is valid exactly when the size is at least a header plus the
  bytes the alignment cuts off (`HoleLists.HoleList.New`, `Heaps.Heap.New`).
- A delay need not last as long as was requested. `schedule` takes no account of how far the
  period under way has got: a delay that begins in mid-period, without arming the timer, is
  taken to have begun with the period, and ends that much too soon
  (`DelayClocks.MayEndEarly`); one that arms the timer anew makes every other delay lose the
  part that has passed, and end that much too late (`DelayClocks.MayRestart`). `signal` takes the
  stored deadline off every delay, and not the duration it had armed
  (`DelayClocks.MayEndLate`). Over every run a delay lasts what was requested and the sum of what
  these steps shift, so that it lasts exactly as requested if and only if they add up to nothing
  (`DelayClocks.DelayLasts`). That is so, in particular, for a delay that arms the timer when it
  is scheduled and is not overtaken by a shorter one (`DelayClocks.SoonestLastsExactly`). Every
  delay does end (`DelayRuns.DelayEnds`).

## Where the code panics

- `run` panics when a ninth task is ready at a snapshot (`Executors.Executor.CollectReady`), and
  a body does when it spawns into a full task list.
- A delay panics exactly if eight others are unfinished, if it is of zero milliseconds, or if it
  has a rate of zero millihertz while no other waits (`DelayRuns.SchedulePanics`); and `signal`
  does exactly if some delay goes on, and what each that does has left has such a rate
  (`DelayRuns.SignalPanics`). The hardware timer divides by that rate.
- Nothing panics as long as the tasks, with all that they may still spawn, are at most eight, no
  loop spawns, and delays are positive and not too long (`Capacity.NeverPanics`,
  `TimedRuns.CalmRunReturns`).
- No run comes to the `unwrap` of an empty exit slot (`Progress.JoinFindsValue`).

## Where the code and its comments differ

- The comment on the free function `run` speaks of one round; the code loops until all tasks
  have terminated. The model follows the code.

## Model

| member | source | states |
|---|---|---|
| Words.PowerOfTwoMeaning | src/alloc/cortex_m/alloc/layout.rs:39 | counting one bits recognises exactly the powers of two |
| Words.MaskClears | src/alloc/cortex_m/alloc/mod.rs:117-119 | masking a word with the bitwise complement of a power of two less one subtracts exactly its remainder |
| Layouts.AlignDownGreatest | src/alloc/cortex_m/alloc/mod.rs:115-125 | the mask gives the greatest multiple at or below the address |
| Layouts.AlignUpLeast | src/alloc/cortex_m/alloc/mod.rs:127-131 | the result is the least multiple at or above the address whenever the sum fits a word |
| Layouts.RoundUpRange | src/alloc/cortex_m/alloc/layout.rs:45-59 | the check on the unrounded sum is equivalent to the rounded size fitting a word |
| Layouts.FromSizeAlignExact | src/alloc/cortex_m/alloc/layout.rs:26-64 | accepts exactly power-of-two alignments whose rounded size fits, and then gives a valid layout |
| Layouts.PaddingLeast | src/alloc/cortex_m/alloc/layout.rs:148-189 | the wrapping mask arithmetic computes the least padding for every size, also where the rounded size wraps to zero |
| Layouts.PadToAlignTotal | src/alloc/cortex_m/alloc/layout.rs:191-206 | never panics on a valid layout, gives the least padded size, and is idempotent |
| Layouts.RepeatExact | src/alloc/cortex_m/alloc/layout.rs:208-235 | fails exactly when the padded copies overflow a word; the layout built without a check is valid |
| Layouts.RepeatTiles | src/alloc/cortex_m/alloc/layout.rs:208-235 | every copy is aligned and ends before the next copy and the whole |
| Layouts.ExtendExact | src/alloc/cortex_m/alloc/layout.rs:283-297 | succeeds exactly when the joined record rounded to the joint alignment fits; the offset is the least aligned one |
| Layouts.PackedLeast | src/alloc/cortex_m/alloc/layout.rs:261-273 | each field of a folded record is aligned at the least offset behind the field before it |
| Layouts.PackedInOrder | src/alloc/cortex_m/alloc/layout.rs:261-273 | fields of a folded record lie in order and never overlap |
| Layouts.ReprC | src/alloc/cortex_m/alloc/layout.rs:261-273 | folding extend over any fields succeeds exactly when the padded record fits, packs the fields, and keeps each aligned wherever the record lies |
| Layouts.ArrayExact | src/alloc/cortex_m/alloc/layout.rs:335-343 | for a padded type, fails exactly on overflow of the product and adds no padding |
| Holes.Canonical | src/alloc/cortex_m/alloc/hole.rs:10-13 | well-formed hole lists with the same free bytes are equal |
| Holes.InsertMeaning | src/alloc/cortex_m/alloc/hole.rs:224-310 | freeing gives the sorted, coalesced list for the old free bytes and the block, and adds its size |
| Holes.FreesCommute | src/alloc/cortex_m/alloc/hole.rs:69-77 | the list does not depend on the order of two frees |
| FirstFit.SplitComplete | src/alloc/cortex_m/alloc/hole.rs:132-189 | split_hole fails exactly when no aligned placement with proper leftovers exists in the hole, and otherwise finds the least |
| FirstFit.SplitTiles | src/alloc/cortex_m/alloc/hole.rs:132-189 | paddings and block tile the hole in address order, and each may be listed |
| FirstFit.SplitWordsExact | src/alloc/cortex_m/alloc/hole.rs:137-189 | on every hole in memory the masks and machine sums of split_hole fail exactly when one of three sums overflows, and otherwise give the same result |
| FirstFit.FirstFitLowest | src/alloc/cortex_m/alloc/hole.rs:191-222 | the search fails exactly when no hole admits a placement, and otherwise takes the lowest one in any hole |
| FirstFit.TakenMeaning | src/alloc/cortex_m/alloc/hole.rs:55-67 | an allocation removes exactly the bytes of an aligned block and keeps the list well-formed |
| FirstFit.TakeThenInsert | src/alloc/cortex_m/alloc/hole.rs:69-77 | freeing a block straight after its allocation restores exactly the list |
| Refree.GapFilled | src/alloc/cortex_m/alloc/hole.rs:251-258 | merging block, previous and next hole is freeing the block |
| Refree.HoleExtended | src/alloc/cortex_m/alloc/hole.rs:259-269 | growing the previous hole is freeing the block |
| Refree.AbsorbNext | src/alloc/cortex_m/alloc/hole.rs:270-278 | removing the next hole and freeing both together is freeing the block |
| Refree.HoleAdded | src/alloc/cortex_m/alloc/hole.rs:287-306 | linking a new hole is freeing the block when it touches neither neighbour |
| Refree.RefreedIsReplaced | src/alloc/cortex_m/alloc/hole.rs:58-66 | freeing the paddings again merges with no neighbour and puts exactly them in the place of the hole |
| Chains.LiveUnchanged | src/alloc/cortex_m/alloc/hole.rs:296-305 | writes to free words leave the contents of a live block as they were |
| HoleLists.HoleList.New | src/alloc/cortex_m/alloc/hole.rs:31-47 | writes the first header, and gives a valid list exactly when a header still fits after the alignment |
| HoleLists.HoleList.UnlinkNext | src/alloc/cortex_m/alloc/hole.rs:275 | takes the next hole off the chain in memory and writes only to its header and the cursor's |
| HoleLists.HoleList.Turn | src/alloc/cortex_m/alloc/hole.rs:227-309 | one turn of the loop: neither assertion fires, the block is freed or fewer holes are left behind the cursor |
| HoleLists.HoleList.DeallocateBlock | src/alloc/cortex_m/alloc/hole.rs:224-310 | terminates, frees the block in the list in memory, and writes only to words free afterwards |
| HoleLists.HoleList.FindUsable | src/alloc/cortex_m/alloc/hole.rs:198-222 | walks to the first usable hole and splits it as the value-level search does |
| HoleLists.HoleList.TakeFirst | src/alloc/cortex_m/alloc/hole.rs:198-222 | takes the first usable hole off the chain in memory, or leaves everything as it was |
| HoleLists.HoleList.AllocateFirstFit | src/alloc/cortex_m/alloc/hole.rs:55-67 | returns the lowest placement, leaves the list with the hole replaced by its paddings, and writes only to words free before |
| HoleLists.HoleList.Deallocate | src/alloc/cortex_m/alloc/hole.rs:75-77 | frees a block by its layout's size |
| Heaps.AlignLayoutExact | src/alloc/cortex_m/alloc/mod.rs:50-59 | the alignment is kept and the size is the rounded one; exactly when rounding panics |
| Heaps.AlignLayoutLeast | src/alloc/cortex_m/alloc/mod.rs:50-59 | the rounded size is the least whole number of words that is no less than the request and than a header |
| Heaps.StartMisfit | src/alloc/cortex_m/alloc/mod.rs:36 | the size check passes an unaligned memory that holds no header |
| Heaps.AllocateKeeps | src/alloc/cortex_m/alloc/mod.rs:66-73 | an allocation keeps holes and live blocks a tiling of the region, blocks aligned and disjoint, and the counters |
| Heaps.ReleaseKeeps | src/alloc/cortex_m/alloc/mod.rs:82-86 | a legal free keeps the same invariant, so used never underflows |
| Heaps.RunKeeps | src/alloc/cortex_m/alloc/mod.rs:61-86 | every run of allocations and legal frees keeps the invariant |
| Heaps.RunServes | src/alloc/cortex_m/alloc/mod.rs:61-86 | over every run the bytes that were asked for lie in the region, aligned as asked, in no hole, and apart from those of every other live block |
| Heaps.FreeOrLive | src/alloc/cortex_m/alloc/mod.rs:61-86 | every byte of the region is free, or belongs to exactly one live block, and never both |
| Heaps.HistoryForgotten | src/alloc/cortex_m/alloc/hole.rs:10-13 | the hole list and the used counter depend only on which bytes are live |
| Heaps.AllReleased | src/alloc/cortex_m/alloc/mod.rs:75-86 | once all blocks are back, in whatever order, the heap is its single initial hole |
| Heaps.Conservation | src/alloc/cortex_m/alloc/mod.rs:66-86 | over every run hole sizes and used add up to the region, and used is the sum of the rounded live sizes |
| Heaps.AllocateThenRelease | src/alloc/cortex_m/alloc/mod.rs:75-86 | releasing a block straight after its allocation restores the whole state |
| Heaps.ReleasesCommute | src/alloc/cortex_m/alloc/mod.rs:75-86 | two releases commute on the whole state |
| Heaps.RequestComplete | src/alloc/cortex_m/alloc/mod.rs:61-73 | a request fails exactly when its rounded size fits no hole, and otherwise gets the lowest placement |
| Heaps.Heap.New | src/alloc/cortex_m/alloc/mod.rs:33-48 | too small a memory gives the empty heap; otherwise valid exactly when a header fits after alignment |
| Heaps.Heap.AllocateFirstFit | src/alloc/cortex_m/alloc/mod.rs:66-73 | takes the allocation step in memory, panics exactly when rounding the request does, serves every live request in full, and no live block's contents change |
| Heaps.Heap.Deallocate | src/alloc/cortex_m/alloc/mod.rs:82-86 | takes the release step in memory, and no remaining live block's contents change |
| Heaps.Heap.Free | src/alloc/cortex_m/alloc/mod.rs:108-111 | exceeds the total of the holes by exactly the bytes the first alignment cut off |
| Ownership.SoleHoldersSpawn | src/task.rs:24-30 | spawning with moved handles keeps one holder per handle |
| Ownership.TaskSpawns | src/executor.rs:224-245 | a spawn inside a task keeps every body's value, every rank and every sole holder |
| Ownership.MainSpawns | src/executor.rs:224-245 | a spawn from outside does, and gives the new task the value of its body |
| Protocol.ReadyBelowExact | src/executor.rs:263-271 | the snapshot holds exactly the ready tasks, each once, in spawn order |
| Protocol.RoundKeeps | src/executor.rs:274-279 | marking the next task of the snapshot as pending keeps the protocol |
| Protocol.ExitedKeeps | src/executor.rs:193-199 | storing TERMINATED after the exit slot keeps the protocol |
| Protocol.WakingKeeps | src/executor.rs:200-204 | firing the completion waker leaves no waiter pending on the ended task |
| Protocol.OneWaiter | src/task.rs:63-70 | no two tasks await the same task |
| Protocol.JoinPendingKeeps | src/task.rs:65-69 | storing the waker overwrites no other task's waker and leaves the poller suspended |
| Protocol.JoinReadyKeeps | src/task.rs:70-74 | a join on a terminated task finds the value of its body in the exit slot |
| Protocol.YieldKeeps | src/task.rs:89-99 | defer wakes its own task before it leaves; a delay leaves its waker with the interrupt |
| Protocol.LoopKeeps | examples/stm32l4/src/main.rs:78-100 | another turn of a task's loop keeps the protocol |
| Protocol.SignalKeeps | examples/stm32l4/src/async_timer.rs:137-141 | an interrupt that ends a delay keeps the protocol at every point of a poll |
| Protocol.FireKeeps | src/executor.rs:286-295 | an early firing of a stored waker keeps the protocol: it never reaches a terminated task |
| Protocol.ExecKeeps | src/executor.rs:180-206 | every step of run and do_poll keeps the protocol |
| Protocol.RunKeeps | src/executor.rs:247-282 | every interleaving of executor steps, interrupts and outside calls keeps it |
| Progress.TaskMeaning | src/executor.rs:193-204 | at any point of any run, every task, wherever it was spawned, comes to the value that evaluating the rest of its body directly gives |
| Progress.SpawnMeaning | src/executor.rs:224-245 | a task spawned from outside comes to the direct evaluation of its body |
| Progress.ChildMeaning | src/executor.rs:224-245 | a task spawned inside a body, awaited or not, comes to the direct evaluation of its own body |
| Progress.LoopNeverEnds | examples/stm32l4/src/main.rs:78-100 | no run terminates a task that has come to an endless loop, or one that awaits it |
| Doings.ThenDoes | examples/stm32l4/src/main.rs:78-85 | one turn of a loop and then the loop does what the body does, in order, and then what the loop does from the body's return |
| Doings.ThenEnds | examples/stm32l4/src/main.rs:78-85 | and has the variables and handles that follow from that |
| Doings.RunConserves | src/executor.rs:189-191 | whatever happens in between, a run does of a task's body exactly what the body does, in its order: defers, delays with their durations, spawns and awaits; what is left is what was left |
| Doings.TurnDoesBody | examples/stm32l4/src/main.rs:78-100 | between one turn of a loop and the next the task does exactly its body, and has the variables and handles of the body's return |
| Doings.EndedDoesBody | src/executor.rs:193-199 | a terminated task has done its whole body, and its exit value is what the body returns there |
| Doings.RunHonest | src/task.rs:63-75 | every value a task awaited is the exit value of the task it awaited |
| Progress.JoinFindsValue | src/task.rs:44-54 | join and await never unwrap an empty exit slot |
| Progress.TerminationFinal | src/executor.rs:286-295 | a terminated task never changes again, so no completed future is polled again |
| Progress.ExitWrittenOnce | src/executor.rs:193-199 | a value in the exit slot is never replaced |
| Progress.ReadyUntilPolled | src/executor.rs:180-182 | a ready task stays ready until its own poll begins or ends it |
| Progress.NoLostWake | src/executor.rs:180-206 | a pending task outside a poll waits for a running task, or an interrupt, that holds its waker |
| Progress.SignalSeen | src/executor.rs:180-191 | a signal at any point of a poll leaves the task ready or is seen by that poll |
| Progress.WaiterWoken | src/executor.rs:200-204 | the step after TERMINATED makes the waiter ready |
| Progress.PollsTheQueue | src/executor.rs:274-280 | until the next snapshot exactly the queue is polled, in order and once each |
| Progress.RoundPollsReady | src/executor.rs:263-280 | a round polls exactly the tasks ready at its snapshot |
| Progress.WaitsOneRound | src/executor.rs:247-282 | a ready task that is not in mid-poll is polled before the second snapshot from now |
| Progress.DeferOneRound | src/task.rs:86-103 | a deferring task is not polled again in this round and is polled in the next |
| Progress.NoDeadlock | src/executor.rs:250-271 | between polls, while a task runs, some task is ready or waits for an interrupt |
| Progress.NeverDeadlocked | src/executor.rs:250-271 | no run from a fresh executor reaches a deadlock |
| Progress.SnapshotNotEmpty | src/executor.rs:263-271 | without delays no snapshot is empty while a task runs |
| Termination.ExecDecreases | src/executor.rs:247-282 | every step except an empty snapshot and another turn of a loop makes the measure smaller |
| Termination.SignalDecreases | examples/stm32l4/src/async_timer.rs:137-141 | ending a delay makes the measure smaller although it sets a ready flag |
| Termination.SpinsInPlace | src/executor.rs:247-282 | over an empty snapshot run comes back to where it was, so only an interrupt changes anything |
| Termination.SpinningWaits | src/executor.rs:263-271 | where run spins some delay is armed and holds its task's waker |
| Termination.DelayEndsSpin | examples/stm32l4/src/async_timer.rs:137-141 | whichever delay ends, its end stops the spinning |
| Termination.RunReturns | src/executor.rs:247-282 | for all bodies and all interrupts that end delays: no execution is longer than the measure, and one that cannot go on has ended with all tasks terminated, or panicked, or come to another turn of a loop |
| Termination.LoopFreeReturns | src/executor.rs:247-282 | without loops it has ended with all tasks terminated, or panicked |
| Termination.ClosedReturns | src/executor.rs:247-282 | without delays and loops run never spins, and returns by itself |
| Termination.ExecutionExplains | src/executor.rs:193-204 | along any execution, the last configuration holds the value of every task of every earlier one |
| Capacity.SnapshotLimit | src/executor.rs:263-271 | up to eight ready tasks give a round of just them, nine the panic |
| Capacity.SpawnLimit | src/executor.rs:213-245 | a spawn from outside adds a ready task with the given body, variables and handles, up to sixty-four |
| Capacity.BodyLimits | src/executor.rs:224-245 | a body's spawn panics exactly at sixty-four tasks, and its delay exactly at eight others |
| Capacity.ExecFits | src/executor.rs:247-282 | with at most eight tasks now and later, and positive delays, no step panics and that stays so |
| Capacity.NeverPanics | src/executor.rs:224-282 | no run panics whose callers spawn no more than that |
| Capacity.FittingRunReturns | src/executor.rs:247-282 | then, without loops, run can end only with every task terminated |
| Executors.Executor.Spawn | src/executor.rs:224-245 | takes the spawn step, fails exactly on a full list, and records the value of the body |
| Executors.Executor.StepBody | src/executor.rs:189-191 | one step of a future is one step of the machine |
| Executors.Executor.Terminate | src/executor.rs:193-205 | the stores at the end of do_poll are the machine's three steps |
| Executors.Executor.DoPoll | src/executor.rs:180-206 | a poll gets from one queue to the next by the machine's steps and never unwraps an empty slot |
| Executors.Executor.AllDone | src/executor.rs:250-255 | counting terminated tasks decides whether all are |
| Executors.Executor.CollectReady | src/executor.rs:263-271 | collects exactly the ready tasks, or overflows exactly when there are more than eight |
| Executors.Executor.Snapshot | src/executor.rs:263-271 | spins until an interrupt makes a task ready, then collects exactly the ready tasks or overflows |
| Executors.Executor.Run | src/executor.rs:247-282 | terminates for bodies without loops; unless it panics all tasks have terminated, with the values of their bodies also for tasks spawned on the way; does not panic within the capacity |
| Executors.Executor.Join | src/task.rs:44-54 | returns the value of the task's body exactly if the task has terminated, and spins otherwise |
| AsyncTimers.SoonestMeaning | examples/stm32l4/src/async_timer.rs:144-153 | the running minimum is the least time left of any waiting delay |
| AsyncTimers.OverMeaning | examples/stm32l4/src/async_timer.rs:137-141 | exactly the stored wakers of the delays that are over are fired |
| AsyncTimers.ScheduleKeeps | examples/stm32l4/src/async_timer.rs:99-125 | scheduling panics exactly if all slots are taken, the delay is zero, or it has no rate and would be the only one that waits; otherwise it keeps the arming invariant |
| AsyncTimers.ScheduleOutcome | examples/stm32l4/src/async_timer.rs:101-119 | a delay gets the first free slot; a stored deadline that is as short leaves deadline and timer as they were, otherwise both become the new delay |
| AsyncTimers.PollOutcome | examples/stm32l4/src/async_timer.rs:50-68 | a poll frees its slot or stores its waker, and changes nothing else |
| AsyncTimers.SignalOutcome | examples/stm32l4/src/async_timer.rs:133-161 | a signal takes the stored deadline off every delay, down to nothing, and leaves that deadline as it was while a delay goes on |
| AsyncTimers.SignalKeeps | examples/stm32l4/src/async_timer.rs:130-164 | a signal panics exactly if what is left of every delay that goes on has no rate; otherwise it keeps the invariant: the deadline is stored exactly when the timer is armed, exactly when a delay waits |
| AsyncTimers.SignalArmsSoonest | examples/stm32l4/src/async_timer.rs:144-161 | after a signal the timer is armed with the least time left of any waiting delay, never zero, exactly when one waits |
| DelayRuns.Reachable | examples/stm32l4/src/async_timer.rs:50-164 | over every run from an idle timer slots and unfinished delays belong together one to one, each slot holding its owner's last waker, and the timer is armed exactly while a delay waits |
| DelayRuns.SchedulePanics | examples/stm32l4/src/async_timer.rs:101-116 | scheduling panics exactly for a ninth unfinished delay, for zero, and for a duration without a rate while no other delay waits |
| DelayRuns.SignalPanics | examples/stm32l4/src/async_timer.rs:157-158 | a signal panics exactly if each of the delays that go on has more left than the timer can be armed with |
| DelayRuns.ShortKept | examples/stm32l4/src/async_timer.rs:99-164 | neither happens as long as only shorter delays are scheduled |
| DelayRuns.StoredDeadline | examples/stm32l4/src/async_timer.rs:107-119 | over every run the stored deadline is the request of the last schedule that armed the timer, while a delay waits |
| DelayRuns.FiresOwners | examples/stm32l4/src/async_timer.rs:137-141 | a signal fires exactly the wakers that the delays due stored last |
| DelayRuns.FiresLatest | examples/stm32l4/src/async_timer.rs:57-60 | over every run the waker fired for a delay is that of its owner's last poll, and no other is fired |
| DelayRuns.PollReturns | examples/stm32l4/src/async_timer.rs:50-68 | a poll returns exactly when no time is left |
| DelayRuns.EndIsSeen | examples/stm32l4/src/async_timer.rs:137-141 | the end of a delay fires its latest waker, and the next poll returns |
| DelayRuns.DelayEnds | examples/stm32l4/src/async_timer.rs:130-164 | every delay ends after at most as many signals as it has milliseconds left |
| DelayClocks.PeriodGoesOn | examples/stm32l4/src/async_timer.rs:107-119 | a period goes on exactly while the timer is not armed anew |
| DelayClocks.ErrorShifts | examples/stm32l4/src/async_timer.rs:107-161 | by how much each step moves the end of a delay: arming in mid-period by the part that has passed, a signal by what was armed less what it takes off, and nothing else |
| DelayClocks.DelayLasts | examples/stm32l4/src/async_timer.rs:107-161 | over every run a delay lasts what was requested and the sum of those shifts, and so exactly as requested if and only if they add up to nothing |
| DelayClocks.SoonestLastsExactly | examples/stm32l4/src/async_timer.rs:107-119 | a delay that arms the timer, and is not overtaken by a shorter one, lasts exactly as requested |
| DelayClocks.MayEndEarly | examples/stm32l4/src/async_timer.rs:112-114 | a delay scheduled in mid-period ends too soon by the part that has passed |
| DelayClocks.MayRestart | examples/stm32l4/src/async_timer.rs:114-117 | a shorter delay scheduled in mid-period makes the longer one late by that part |
| DelayClocks.MayEndLate | examples/stm32l4/src/async_timer.rs:157-158 | of any two delays requested together the second lasts the sum of what it has left after each signal, and as requested exactly if it is at most twice as long as the first |
| TimedMachine.DelayRefines | examples/stm32l4/src/async_timer.rs:80-127 | a task at a delay goes on, waits, arms or panics by the timer's answer exactly as the machine says, unless the delay is too long to be armed; a delay begins with just the duration the body asks for |
| TimedMachine.TickRefines | examples/stm32l4/src/async_timer.rs:130-164 | a tick ends exactly the delays due and readies exactly the tasks whose wakers it fires: a run of the machine |
| TimedRuns.RunRefines | examples/stm32l4/src/async_timer.rs:50-164 | every run of executor and timer is a legal run of the machine and a legal run of the timer, whose operations are the polls, requests and ticks of the run, in order |
| TimedRuns.SchedulesAsked | examples/stm32l4/src/async_timer.rs:70-88 | the timer is asked for exactly the delays that the bodies come to, with their durations, in their order |
| TimedRuns.SpinsArmed | src/executor.rs:263-271 | wherever run spins the hardware timer is armed |
| TimedRuns.SpinEnds | examples/stm32l4/src/async_timer.rs:130-164 | the spinning ends within as many ticks as a delay has milliseconds left, unless the timer panics |
| TimedRuns.CalledRunReturns | src/executor.rs:303-309 | with the timer as the only interrupt run returns with every task's value, unless it panics or comes to a loop |
| TimedRuns.CalmRunReturns | src/executor.rs:303-309 | if all that was spawned fits in, without loops, it does return with every task terminated |
| AsyncTimers.AsyncTimer.HasExpired | examples/stm32l4/src/async_timer.rs:50-68 | frees the slot of a delay that is over, stores the waker of one that is not |
| AsyncTimers.AsyncTimer.Schedule | examples/stm32l4/src/async_timer.rs:99-125 | takes the first free slot and arms the timer for a sooner delay; panics exactly as the value does |
| AsyncTimers.AsyncTimer.Age | examples/stm32l4/src/async_timer.rs:134-156 | the loop ages every slot, fires exactly the wakers due, and finds the minimum |
| AsyncTimers.AsyncTimer.Signal | examples/stm32l4/src/async_timer.rs:130-164 | takes the signal step in memory, also with nothing stored, fires the wakers due, and panics exactly as the value does |

## Left out

- Memory is modelled word by word, with headers at word-aligned addresses; the bytes inside a word are not told apart.
- Addresses are unbounded in the hole-list proofs; `FirstFit.SplitWordsExact` says exactly when a machine sum overflows. What a release build computes after an overflow is not modelled.
- Frees that are not legal (double frees, wrong layouts) are undefined behaviour by the source's own contract and are excluded.
- Wakers are task indices, not pointers, and the tasks of the executor are records in a sequence, so aliasing of task control blocks is not modelled.
- Executors.Executor.Run: is for bodies without loops, because with one `run` does not return; and interrupts come only where it spins. Loops, and interrupts at any other point, are in `Protocol.RunKeeps`, `Termination.RunReturns` and `TimedRuns.RunRefines`.
- Loops that end (`while`, `break`); a task's loop is endless, as in `examples/stm32l4/src/main.rs`.
- Combinators that poll several futures at once, futures dropped in mid-wait, and handles shared through statics: each task awaits one thing at a time and each handle has one holder.
- A spawn into a full task list from inside a body is taken to panic, as with `unwrap`; a body that handles the error is not modelled.
- Allocation of task control blocks is assumed to succeed; `SpawnError::ExecutorNotInitialized`, names and logging are not modelled.
- AsyncTimers.AsyncTimer.Start: says only which durations are too long for a rate, by a bound that is left open; how `embedded-time` rounds, and what the registers make of a duration (timer.rs:44-70), is not part of the model.
- AsyncTimers.AsyncTimer.Schedule: after a panic nothing is claimed of the timer, because the program is over.
- AsyncTimers.AsyncTimer.Signal: the same.
- Critical sections, memory orderings, pinning and vtables: a critical section or a store is one step.
- Interrupt latency: a signal comes at the very moment when the armed time has passed.
- `src/alloc/static_alloc.rs`, `src/alloc/cortex_m/mod.rs`, `Layout::dangling`, `Layout::align_to` and the packed variants.
