# MiniOS in Dafny

Models and proofs for the kernel in this repository and for four parts of the Bochs sources it
carries: the timer wheel, the CRC, the PCI address allocator and the BIOS tables.  Every module
models one part of the program and proves what that part is for.  `dafny verify dfyconfig.toml`
checks the whole project, within Dafny's default limit of 30 seconds for each batch.

## The parts

**Timers** (`TimerBoard`, `TimerWheel`, `TimerDeadlines`, `TimerCalls`, `PcSystem`).
`TimerBoard` is the simple specification: a clock advanced by one tick at a time, 64 slots with
absolute deadlines, and callbacks that register, activate, deactivate and unregister timers.
`TimerWheel` adds the time of the next event and is proved to show the same board.
`TimerDeadlines` and `TimerCalls` say over whole runs when handlers are called, and what the timer
calls are for.  `PcSystem` is the class of the source, with its 32-bit countdown relative to the
last event; each method is proved to be a step of the wheel, so `tickn(n)` is n times `tick1`.

**Memory** (`Paging`, `Ownership`, `Access`, `Memory`).  Frames are sequences of 64-bit words named
by their virtual address; free-list links, page tables and user pages all lie in them.  A ghost map
gives each frame its owner, and the owner of a table says where it hangs, so a table cannot be
reached on two paths.  `Paging` has the address arithmetic and the walk, `Ownership` what single
writes do to the trees, `Access` what the attribute bits on the way to a page permit, `Memory` the
class with the functions of memory.c.  Reading or writing a frame demands that it is not on the
free list, so the order of the teardown is checked at every access.

**Processes** (`Scheduler`, `Queues`, `ProcessTable`, `KernelRuns`, `KernelHistory`,
`KernelPromises`).  `Scheduler` says what each operation makes of the table as a value, and keeps a
history of the slots made current.  `ProcessTable` is the imperative form: one array of `next`
pointers for the 20 slots and the three list heads, the heads used as nodes as in lib.c.
`KernelRuns` is the state machine of kernel entries and interrupts: interrupts are off inside the
kernel, so each entry is one step up to the context switch, and `wait`, `sys_sleep` and
`read_key_buffer` continue where they slept.  `KernelHistory` and `KernelPromises` have the
theorems over whole runs.

**Kernel and files** (`ProcessFrames`, `Kernel`, `Directory`, `Fat`, `Loader`, `FileCounts`,
`FileTables`, `Machine`).  `Kernel` joins memory and processes: which 7 frames a process is made
of, from fork to wait.  `FileTables` has the two levels of reference counts, `Fat` the two readers
of cluster chains, `Directory` names and the root directory, `Loader` the loader's load_file.
`Machine` joins everything in the kernel.  A slot without a process has no open file, so the counts
count the pointers of the live processes, killed ones included.

**Bochs** (`Crc`, `PciRegions`, `BiosTables`) and the keyboard ring (`KeyBuffer`).

## What turned out not to hold

- A timer handler can run before its deadline, or a due one not at all:
  `TimerDeadlines.ReusedSlotFiresEarly` is such a run, `TimerDeadlines.TickFiresTheDue` the exact
  condition on the timer calls of the callbacks.
- The loops over a range of pages wrap at the top of the 64-bit space: `Paging.LastThreePages` is
  such a range, `Paging.RangeEnds` the exact condition on its two ends.
- The loader rejects some intact files and accepts truncated ones: `Loader.LoaderFails` has one
  of each, `Loader.LoadFile` says exactly which it accepts, `Loader.LoadedRightIff` which of them
  are whole.
- PCI regions are not always aligned and disjoint.  They are aligned, wherever nothing wraps,
  exactly under the condition on the register's bits in `PciRegions.RegisterAlignsIff`; they lie
  behind the earlier ones exactly where nothing wraps, `PciRegions.BehindCursorIff`.
  `PciRegions.NarrowRegistersMisplace` and `PciRegions.FlagsOnly` have registers that fail.

## Model

| member | source | states |
|---|---|---|
| `TimerWheel.TicksRefineClock` | config/bochs/pc_system.cc:321-385 | A wheel that looks at its timers only when the next event comes shows, after any number of ticks and for any callbacks, the same timers, device state and callback log as a clock that looks at every tick |
| `TimerWheel.TickRefinesClock` | config/bochs/pc_system.h:106-121 | The same for one tick: between events no deadline comes, at an event exactly the due timers are handled |
| `TimerWheel.TicksToEvent` | config/bochs/pc_system.h:111-121 | Jumping to the next event and handling it there equals ticking up to it one by one |
| `TimerWheel.RunsRefineClock` | config/bochs/pc_system.cc:261-602 | The same over any run that mixes ticks with timer calls made outside callbacks |
| `TimerWheel.TicksCompose` | config/bochs/pc_system.h:111-121 | Ticking m and then n is ticking m + n, from any state |
| `TimerWheel.DueTimer` | config/bochs/pc_system.cc:336-358 | Rearming a due continuous timer does not wrap its 64-bit deadline |
| `TimerWheel.EarliestDeadline` | config/bochs/pc_system.cc:329-361 | The minimum found by the scan is below every active deadline and is one of them |
| `TimerDeadlines.TickOfOne` | config/bochs/pc_system.cc:336-382 | A timer that no callback touches fires at a tick exactly when its deadline is the new time |
| `TimerDeadlines.OneShotFiresOnce` | config/bochs/pc_system.cc:340-350 | Over any run of ticks and timer calls about other slots, made in callbacks or between ticks, a one-shot timer fires once, exactly at its deadline, and is inactive from then on |
| `TimerDeadlines.ContinuousFiresEveryPeriod` | config/bochs/pc_system.cc:340-358 | Over any such run a continuous timer fires at its deadline and every period after it, and at no other time; at every point its deadline is the first of these moments still to come |
| `TimerDeadlines.OccurrencesAt` | config/bochs/pc_system.cc:340-358 | The k-th of those moments is the first deadline plus k periods, and none up to the present is missing |
| `TimerDeadlines.TickFiresTheDue` | config/bochs/pc_system.cc:371-384 | A tick calls the handlers of exactly the due timers, once each and in slot order, if and only if the timer calls made by the callbacks before its turn leave each due slot with the handler it had: not unregistered, or last registered anew with the same handler |
| `TimerDeadlines.ReusedSlotFiresEarly` | config/bochs/pc_system.cc:371-384 | Where that fails: a slot unregistered and registered anew by a callback of the same event runs its new handler 100 ticks before its deadline |
| `TimerCalls.ActivateFires` | config/bochs/pc_system.cc:473-505 | Over any run after it, a timer activated for ticks fires that much later, one tick at least, and then periodically exactly if it is continuous, and at no other time, unless it is named again |
| `TimerCalls.RegisterFires` | config/bochs/pc_system.cc:261-319 | So does a timer registered active; it gets the first slot that is not in use, with its handler |
| `TimerCalls.OffIsSilent` | config/bochs/pc_system.cc:336-338 | A timer that is off is not called, and stays off, in any run in which no timer call, inside a callback or outside, turns its slot on |
| `TimerCalls.DeactivateSilences` | config/bochs/pc_system.cc:562-572 | Deactivating turns a timer off and changes nothing else, so it is not called until its slot is turned on again |
| `TimerCalls.UnregisterFrees` | config/bochs/pc_system.cc:574-602 | Unregistering a timer that is off frees its slot, which is not called until it is turned on again; one that is on stays as it is |
| `PcSystem.PcSystem.Initialize` | config/bochs/pc_system.cc:41-76 | At time 0 the null timer is the only one and the countdown is its whole interval |
| `PcSystem.PcSystem.TimeTicks` | config/bochs/pc_system.h:130-133 | The reported time is the clock's, whatever part of the countdown is spent |
| `PcSystem.PcSystem.RegisterTimerTicks` | config/bochs/pc_system.cc:261-319 | Registering is the wheel's step: the free slot found is armed, the running countdown is shortened if and only if the new deadline comes first, the current time does not move; a full board is refused unchanged |
| `PcSystem.PcSystem.ActivateTimerTicks` | config/bochs/pc_system.cc:473-505 | Activating is the wheel's step, with the countdown skewed the same way: the slot gets period and deadline ticks from now, one at least, and nothing else changes |
| `PcSystem.PcSystem.DeactivateTimer` | config/bochs/pc_system.cc:562-572 | The timer is off; nothing else changes |
| `PcSystem.PcSystem.UnregisterTimer` | config/bochs/pc_system.cc:574-602 | An active timer is refused unchanged; otherwise the slot is no longer in use and has no handler, the others stay, and the slot count shrinks if it was the last |
| `PcSystem.PcSystem.Scan` | config/bochs/pc_system.cc:336-361 | One pass over the slots finds exactly the due timers and rearms them, and finds the earliest deadline left and the bounds of the triggered slots |
| `PcSystem.PcSystem.CountdownEvent` | config/bochs/pc_system.cc:321-385 | Handling the event with a 32-bit relative countdown is handling it with absolute times, callbacks included; the new countdown is in 1..0xffffffff |
| `PcSystem.PcSystem.TickN` | config/bochs/pc_system.h:111-121 | tickn(n) leaves exactly the state that n single ticks leave, callbacks at the same times, the time n later; its loop ends |
| `PcSystem.PcSystem.Tick1` | config/bochs/pc_system.h:106-110 | tick1 is one tick of the wheel |
| `PcSystem.PcSystem.Drive` | config/bochs/pc_system.cc:261-602 | Any mixture of tickn and timer calls leaves the class with the board that the simple clock has, so what is said of runs of the clock holds of it |
| `PcSystem.PcSystem.TimeUsecSequential` | config/bochs/pc_system.cc:445-464 | Successive calls give strictly increasing times, whatever ticks and timer calls come in between, never behind the clock and never further ahead than that takes; the time kept never lies ahead of the clock |
| `Paging.TableWordPoints` | memory.h:39-49 | A table's address or-ed with attributes can be read back from the entry, and the entry is present |
| `Paging.LeafWordMaps` | memory.h:39-49 | The same for a 2 MB page with its size bit: no attribute bit reaches the address |
| `Paging.IndexesOfPage` | memory.c:125-152 | The three indexes taken from an address are the digits of its 48-bit page number |
| `Paging.SamePage` | memory.c:125-152 | Two pages with the same three indexes are the same page |
| `Paging.RangeEnds` | memory.c:181-228 | The pages that the do/while visits from v on are exactly those of [v, e) if and only if e lies no higher than 2^64 minus two pages, or e lies in the last page and v in the last two; it then ends by its own test |
| `Paging.LastThreePages` | memory.c:181-228 | Where that fails: started three pages before the end of the address space, with its end in the last page, the loop ends after one page of three |
| `Paging.RoundsReached` | memory.c:181-228 | Wherever the loop ends before it comes round to the bottom of the address space, the rounds it comes to are counted |
| `Paging.LoopEndsIff` | memory.c:181-228 | The starts and ends with which it does so are exactly those named |
| `Paging.RangeTranslates` | memory.c:181-228 | After a range is mapped, every address in it translates to pa plus its distance from the start, every address of another page as before |
| `Ownership.AddPdpt` | memory.c:123-142 | Hanging a zeroed table behind an entry maps nothing new, changes no translation and keeps the tree in order |
| `Ownership.AddPd` | memory.c:146-176 | The same one level down |
| `Ownership.SetLeaf` | memory.c:212-221 | Writing one entry of a page directory changes the mapping of one page and of no other |
| `Ownership.OtherMapSame` | memory.c:181-386 | Work on one address space leaves the tables and translations of every other as they are |
| `Ownership.LocalKeepsMaps` | memory.c:181-386 | If such work keeps its own tables in order, all address spaces stay in order |
| `Ownership.RemovePd` | memory.c:330-357 | Freeing a page directory overwrites its first entry, but with its own entry cleared the rest of the tree reads as before |
| `Ownership.RemovePdpt` | memory.c:359-369 | The same for the table above, once its directories are gone |
| `Ownership.StagesFreeMap` | memory.c:380-386 | The four stages of free_vm together free exactly the frames of the address space |
| `Ownership.Restored` | memory.c:240-256 | Building an address space from free frames and tearing it down gives every frame back to its owner |
| `Ownership.SourceKept` | memory.c:388-419 | While one address space is built, another, its user page and what is on it stay as they were |
| `Ownership.KernelMapsExactly` | memory.c:240-256 | After setup_kvm the first GB is mapped at KERNEL_BASE for the kernel, and nothing else |
| `Access.MappedAllowed` | memory.c:123-228 | What a program may do with a page that has been mapped, by the write and user bits of all three entries on the way, is what the attribute says, as far as tables that were there before let it through |
| `Access.AllowedKept` | memory.c:123-228 | What it may do with pages mapped before stays as it was |
| `Access.KernelPermits` | memory.c:240-256 | After setup_kvm every page mapped can be written by the kernel and none reached in user mode |
| `Access.UserPermits` | memory.c:270-299 | After the user page has been mapped it can be read and written in user mode, and still no other page reached |
| `Memory.PushKeepsList` | memory.c:92-104 | Writing the link into the freed frame itself extends the free list by that frame in front |
| `Memory.PopKeepsList` | memory.c:106-119 | The link read from the head frame is the rest of the list |
| `Memory.Memory.Load` | memory.c:123-174 | No word is ever read from a frame on the free list |
| `Memory.Memory.Store` | memory.c:123-386 | None is written to one |
| `Memory.Memory.KFree` | memory.c:92-104 | A frame in use, and only such a frame, goes to the head of the free list; nothing but its first word changes |
| `Memory.Memory.KAlloc` | memory.c:106-119 | The head of the list, now owned by nobody else, or NULL exactly when the list is empty |
| `Memory.Memory.FindPml4tEntry` | memory.c:123-142 | The table behind the entry, allocated if asked for and there is a frame; translations are unchanged, entries that were there stay, and a new one has exactly the attribute in its low bits |
| `Memory.Memory.FindPdptEntry` | memory.c:146-176 | The page directory for an address through both levels; it takes exactly the tables that are missing, or as many as there are, changes no translation, and gives the new entries the attribute |
| `Memory.Memory.MapPages` | memory.c:181-228 | On success exactly the pages the loop visits, which are those of the rounded range if the range fits, are mapped to consecutive frames from pa and every other 48-bit page as before; on failure the free list is empty and a first part of the range is mapped; within one directory it fails exactly when tables are missing and frames are too few; entries of tables that were there stay and new ones carry the attribute |
| `Memory.Memory.FreePages` | memory.c:304-328 | The pages the loop visits are unmapped, their frames freed once each, every other page stays |
| `Memory.Memory.FreePdt` | memory.c:330-357 | Every page directory of the address space is freed, once, through tables that are still in place |
| `Memory.Memory.FreePdpt` | memory.c:359-369 | So is every table one level up |
| `Memory.Memory.FreePml4t` | memory.c:371-375 | And the root |
| `Memory.Memory.FreeVm` | memory.c:380-386 | All frames of the address space, and no others, are freed, each once; all others keep their contents; the invariant over all address spaces holds again |
| `Memory.Memory.SetupKvm` | memory.c:240-256 | It fails exactly with fewer than 3 free frames, and then every frame is back with its owner; otherwise it takes 3 and maps the kernel half and nothing else, writable and closed to user mode |
| `Memory.PackedHolds` | memory.c:286 | The words that a program of any size in bytes makes, with zeros behind them, hold its bytes in their places and zeros behind |
| `Memory.Memory.SetupUvm` | memory.c:270-299 | It succeeds exactly if there are frames for the page and the missing tables; the page then holds the program, byte by byte, and zeros and is mapped at 0x400000; if the page cannot be mapped, page and address space are given back; on top of the kernel half the page is open to user mode, to read and write, and nothing else is |
| `Memory.Memory.CopyUvm` | memory.c:388-419 | The same with the contents of the source's user page, which is not changed; it fails also where the source has no tables |
| `Memory.Memory.NewFrame` | process.c:47-52 | A zeroed frame for the kernel, with all address spaces as before |
| `Memory.Memory.FreeFrame` | process.c:247 | Giving one back leaves all address spaces as before |
| `Memory.Memory.FreeRegion` | memory.c:83-90 | Exactly the whole aligned frames of the region below the limit reach the allocator |
| `Memory.Memory.constructor` | memory.c:11-15 | An allocator to which nothing has been given |
| `Scheduler.FilterFacts` | process.c:196-213 | The sleepers woken and those left are the list split by reason: nobody is lost, doubled or invented |
| `Scheduler.WakeUpKeepsInv` | process.c:196-213 | wake_up keeps the slots split by state and queue |
| `Scheduler.ScheduleKeepsInv` | process.c:136-157 | schedule restores that the only RUNNING slot is the current one |
| `Scheduler.YieldKeepsInv` | process.c:159-179 | yield keeps the invariant, and the ASSERT in schedule holds, for the idle process too |
| `Scheduler.YieldTurns` | process.c:159-179 | With nobody ready yield changes nothing; otherwise the first ready process runs, the one that ran is READY at the end of the list, unless it is the idle one, and that is one call of schedule |
| `Scheduler.SleepKeepsInv` | process.c:181-194 | So does sleep, for every process but the idle one |
| `Scheduler.ExitEffect` | process.c:215-231 | exit kills the current process, makes every waiter for an exit ready, does nothing else to any process, and keeps the invariant |
| `Scheduler.ReapKeepsInv` | process.c:242-262 | What wait reaps is KILLED and has the pid asked for (its ASSERT), is neither the current process nor the idle one, and the invariant is kept |
| `Scheduler.ReapableIffKilled` | process.c:242-248 | wait finds a process on the kill list exactly if a killed process has that pid |
| `Scheduler.ForkKeepsInv` | process.c:269-306 | fork takes a slot that is neither the idle one nor the current one and keeps the invariant |
| `Scheduler.ForkEffect` | process.c:269-306 | The first unused slot is a ready process at the end of the list, with a pid no process has; every other process, the running one and the schedule stay as they are |
| `Scheduler.WakeUpEffect` | process.c:196-213 | Exactly the sleepers with the given reason become ready; ready processes keep their places, the woken come behind them |
| `Queues.ListAppended` | lib.c:6-18 | Linking an item behind the tail gives the list with it at the end, also if the list was empty |
| `Queues.ListCut` | lib.c:37-63 | Unlinking the member at any position, with the list head taken for a node, gives the list without it and its tail in place |
| `Queues.ListsUpdated` | lib.c:6-63 | Lists that share the one next field do not disturb each other |
| `ProcessTable.Processes.AppendListTail` | lib.c:6-18 | The list grows by the item at its end, the other two lists stay |
| `ProcessTable.Processes.RemoveListHead` | lib.c:20-36 | The first member is taken off and returned, or NULL for an empty list |
| `ProcessTable.Processes.RemoveList` | lib.c:37-63 | The first member that waits for the reason is unlinked wherever it stands, or NULL if there is none; the walk ends |
| `ProcessTable.Processes.Schedule` | process.c:136-157 | The first ready process, or the idle one, becomes current and RUNNING |
| `ProcessTable.Processes.Yield` | process.c:159-179 | Nothing happens while nobody is ready; else the current process goes to the end, unless it is the idle one |
| `ProcessTable.Processes.Sleep` | process.c:181-194 | The current process sleeps with its reason at the end of the wait list |
| `ProcessTable.Processes.WakeUp` | process.c:196-213 | Calling remove_list until it finds nobody is a filter: the matching sleepers end up ready behind the others, in order, the rest stay in order, and the loop ends |
| `ProcessTable.Processes.Exit` | process.c:215-231 | exit as a step of the table |
| `ProcessTable.Processes.WaitTurn` | process.c:242-266 | One turn of wait: the killed process is unlinked and its slot cleared, or the caller sleeps for an exit |
| `ProcessTable.Processes.FindUnused` | process.c:20-32 | The first unused slot, or NULL if there is none |
| `ProcessTable.Processes.Fork` | process.c:38-45 | The first unused slot becomes a ready process with the next pid |
| `ProcessTable.Processes.constructor` | process.c:88-126 | After init_process slot 0 runs as the idle process with pid 0, slot 1 is ready with pid 1, all others are unused and the next pid is 2 |
| `KernelRuns.StepIsSafe` | process.c:146-148 | In every reachable state the ASSERTs of schedule hold wherever it is called, and a resumed reader finds the ring non-empty |
| `KernelRuns.StepKeepsOk` | process.c:136-306 | Every step of the kernel keeps the slots split by state, no wake-up lost, one reader, characters in order |
| `KernelRuns.WaitTurnKeepsOk` | process.c:233-267 | A process goes to sleep inside wait only if nobody it waits for is killed, in the same step |
| `KernelRuns.SleepTurnKeepsOk` | syscall.c:19-36 | A process goes to sleep inside sys_sleep only while ticks are left |
| `KernelRuns.TakeKeyKeepsOk` | keyboard.c:56-57 | Taking the last character leaves nobody awake who was promised one |
| `KernelRuns.ExitKeepsOk` | process.c:215-231 | exit and the wake-up of the waiters are one step, so no waiter misses it |
| `KernelHistory.BootIsOk` | process.c:88-126 | The state after boot is in order |
| `KernelHistory.Run` | process.c:136-306 | So is the state after any run of kernel entries and interrupts |
| `KernelHistory.TurnComes` | process.c:136-213 | A process at position k of the ready list moves up one place at every later call of schedule and is made current by exactly the (k+1)-th, whatever else happens |
| `KernelHistory.NobodyStarves` | process.c:136-213 | Hence every ready process is current within 19 calls |
| `KernelHistory.NoLostWakeUp` | process.c:233-267 | In every reachable state a process asleep inside wait(p) has no killed process p, one asleep inside sys_sleep has ticks left, one asleep inside the keyboard read faces an empty ring |
| `KernelHistory.ReapedOnce` | process.c:233-267 | Once wait has reaped a pid, no later wait in any run finds that pid again |
| `KernelHistory.KeysInOrder` | keyboard.c:35-58 | In every run the characters delivered are the first of those that went into the ring, in order, at most 499 behind |
| `KernelHistory.SavedFrontStands` | keyboard.c:48-58 | In every run the place a reader saved before it slept is still the front of the ring while it is suspended, and holds the oldest waiting character once it is awake |
| `KernelHistory.ReaderGetsOldest` | keyboard.c:48-58 | Hence a reader, resumed or not, gets the oldest character not yet delivered from the place it saved |
| `KernelPromises.TimerPreempts` | trap.c:59-128 | A timer interrupt that finds or wakes a ready process takes the processor away: the first ready process runs, the interrupted one is ready at the end of the list |
| `KernelPromises.TimersSchedule` | process.c:159-179 | In every run each timer interrupt is one more call of schedule while a given ready process has not had its turn |
| `KernelPromises.PreemptedInTurn` | process.c:159-179 | Hence the process at position k of the ready list is made current within k + 1 timer interrupts, whatever the others do |
| `KernelPromises.TicksCountTimers` | trap.c:59-128 | In every run the ticks grow by one for each timer interrupt |
| `KernelPromises.SleepBegins` | syscall.c:19-36 | sys_sleep with ticks to wait puts the caller to sleep on the timer, and with none returns at once |
| `KernelPromises.SleepsLongEnough` | syscall.c:19-36 | In every run after the call the caller is still inside it, or that many timer interrupts have come since |
| `KernelPromises.SleepEnds` | syscall.c:27-34 | Once the ticks have passed the caller is awake, and when it is resumed it returns without giving up the processor |
| `KernelPromises.WaitBegins` | process.c:233-267 | wait(pid) reaps a killed process with that pid and returns, or puts the caller to sleep until an exit |
| `KernelPromises.WaitsForTheProcess` | process.c:233-267 | In every run after the call the caller is still inside it, or the process with that pid is gone and was not before the call |
| `KernelPromises.ReadsACharacter` | keyboard.c:48-58 | In every run after a read from an empty ring the caller is still inside it, or a character has been delivered since |
| `KernelPromises.KeyArrives` | keyboard.c:35-46 | A character typed joins behind those waiting unless there are 499, and a reader asleep on the keyboard is ready |
| `KernelPromises.KeysAreKept` | keyboard.c:35-46 | In every run in which there is room, every character typed goes into the ring, in the order typed |
| `KernelPromises.ExitEnds` | process.c:215-231 | exit leaves the caller killed and not running, and everybody asleep until an exit awake |
| `KernelPromises.ForkBegins` | process.c:269-306 | fork leaves the caller running and the child ready at the end of the list, with a pid not handed out before |
| `ProcessFrames.OneOwner` | memory.c:83-119 | Every frame is in exactly one place: not yet given away, free, a file table, or part of exactly one live process |
| `ProcessFrames.SevenFrames` | process.c:34-83 | Every process but the idle one consists of exactly 7 frames |
| `ProcessFrames.OwnPageOnly` | memory.c:240-299 | In user mode every process but the idle one can read and write its user page and reach no other page, and the frame behind it belongs to no other process |
| `ProcessFrames.BuiltOwned` | process.c:269-289 | A new process's frames are exactly those that changed hands, no other process's frames change |
| `ProcessFrames.DemolishedOwned` | process.c:247-248 | Demolishing one process leaves the frames of all others and one owner for each frame |
| `ProcessFrames.RecordedForked` | process.c:269-306 | A new pid has never been handed out; with its frames recorded, every process still consists of the frames recorded for its pid |
| `ProcessFrames.RecordedReaped` | process.c:233-267 | So it does when another process has been reaped |
| `Kernel.TakenFromFront` | memory.c:106-119 | The frames taken are exactly the first of the free list |
| `Kernel.SameContents` | memory.c:388-419 | Building a child changes nothing on the parent's page |
| `Kernel.FreeGrows` | memory.c:92-104 | What is new on the free list is exactly the frames the process had |
| `Kernel.NewProcess` | process.c:34-83 | alloc_new_process takes 4 frames: a stack and an address space that maps the kernel half only |
| `Kernel.FirstProcess` | process.c:104-120 | The first process is complete and its page holds the program |
| `Kernel.Kernel.constructor` | main.c:11-21 | Boot takes 12 frames and establishes the invariant of memory and processes |
| `Kernel.Kernel.Fork` | process.c:269-306 | fork takes exactly the first 7 free frames, they become the child and are recorded under a pid that is new, its page holds what the parent's holds on a different frame, nothing in use changes, the invariant of memory and processes is kept |
| `Kernel.Kernel.Wait` | process.c:233-267 | wait(pid) gives back exactly the 7 frames that were taken when that pid was handed out, whatever happened in between, never those of the current process; all other address spaces keep their frames and contents; or it sleeps and no frame changes |
| `Kernel.Kernel.Exit` | process.c:215-231 | exit moves no frame; the killed process keeps its frames until it is reaped |
| `Kernel.Kernel.Timer` | trap.c:59-128 | The timer interrupt moves no frame and keeps the invariant |
| `Kernel.Kernel.Sleep` | process.c:181-194 | Nor does a sleep |
| `Kernel.Kernel.WakeUp` | process.c:196-213 | Nor does a wake-up |
| `Machine.Machine.constructor` | main.c:11-21 | Boot establishes the invariant of memory, processes and open files |
| `Machine.Machine.Fork` | process.c:269-306 | The child gets the parent's open files and every reference count is right again; process table, frames and page contents as in Kernel.Fork; the invariant of memory, processes and files is kept |
| `Machine.Machine.Wait` | process.c:233-267 | Reaping, as the table's step, closes the killed process's files and no other, every reference count is right again and the 7 frames recorded for the pid are free again; or the caller sleeps and nothing of files and frames changes; the invariant is kept |
| `Machine.Machine.Open` | file.c:173-215 | Opening for the current process keeps all of this, fails only for want of a slot or a file and then changes nothing; else the lowest free slot names a fresh descriptor at position 0 of the first matching file |
| `Machine.Machine.Close` | file.c:275-285 | So does closing |
| `Machine.Machine.ReadFile` | file.c:259-273 | So does reading, which moves nothing but the position and the buffer |
| `Machine.Machine.Exit` | process.c:215-231 | So does exit, which leaves frames and open files as they are |
| `Machine.Machine.Sleep` | process.c:181-194 | So does every sleep inside the kernel |
| `Machine.Machine.Timer` | trap.c:59-128 | So does the timer interrupt |
| `Machine.Machine.WakeUp` | process.c:196-213 | So does the wake-up by a key |
| `Directory.SplitPath` | file.c:88-117 | A path is accepted exactly if it is an 8.3 name without a slash, and is split at its first dot, padded with spaces |
| `Directory.JoinedPath` | file.c:88-117 | Every name and extension can be asked for by joining them with a dot |
| `Directory.SearchFile` | file.c:119-147 | The first entry in use with that name, if and only if there is one; deleted, empty and long-name entries are passed over |
| `Directory.Layout` | file.c:20-56 | Where nothing wraps 32 bits, the FATs follow the reserved sectors, the directory the FATs, cluster 2 the directory, and every other cluster the one before it |
| `Directory.ClustersApart` | file.c:38-56 | Hence distinct clusters share no byte with each other, with a directory entry or with an entry of the first FAT |
| `FileCounts.AddPointer` | process.c:293-298 | One more pointer to a descriptor, counted in the descriptor and its FCB, keeps all counts equal to the pointers there are |
| `FileCounts.DropPointer` | file.c:275-285 | One less keeps them too, the FCB is dropped exactly with the last pointer, and the ASSERT in put_fcb holds |
| `FileCounts.OpenPointer` | file.c:149-215 | So does opening, where an FCB is filled from the directory exactly if nobody used it |
| `FileCounts.DescriptorTableNeverFull` | file.c:191-200 | There is always a free descriptor, so the branch for a full table is dead |
| `FileTables.FileTables.constructor` | file.c:302-326 | Zeroed tables and no open files have right counts |
| `FileTables.FileTables.GetFcb` | file.c:149-165 | The FCB is counted once more, and filled from its directory entry if it was not in use |
| `FileTables.FileTables.FindDescriptor` | file.c:191-200 | It always finds a free descriptor |
| `FileTables.FileTables.OpenFile` | file.c:173-215 | It fails exactly if the process has no free file slot or there is no such file, and then changes nothing; else the lowest free slot names a fresh descriptor at position 0 of the first matching file |
| `FileTables.FileTables.CloseFile` | file.c:275-285 | The slot is empty and all counts are right |
| `FileTables.FileTables.CopyFiles` | process.c:291-298 | fork's copy: the child's slots are the parent's, a child's slot names the descriptor its parent's does, so that their reads take turns, shared descriptors keep their positions, all counts are right |
| `FileTables.FileTables.ReleaseFiles` | process.c:250-260 | wait's part: the slots are empty, all counts are right |
| `FileTables.FileTables.ReadFile` | file.c:259-273 | Exactly the next bytes of the file, or as many as its chain still has, and the shared position moves behind them; or -1 and no change, if the file ends before |
| `FileTables.FileTables.ReadInTurns` | file.c:259-273 | Reads of any sizes by any processes whose slots name one descriptor deliver, joined in the order of the reads, the consecutive bytes of the file from the shared position on, and the position ends behind them |
| `Fat.Seek` | file.c:222-228 | The walk along the chain reaches the cluster that holds the position and its ASSERT never fails |
| `Fat.ReadRawData` | file.c:217-257 | Exactly the slice of the concatenated clusters that was asked for, or up to the end of the chain, and not a byte more |
| `Fat.Advance` | file.c:241-254 | One cluster on, the bytes left are the chain's from there |
| `Fat.LoaderReadRawData` | loader/file.c:146-179 | The loader's reader delivers the file's bytes as far as the chain goes; what it returns is the size or the whole clusters read |
| `Fat.LoaderSucceedsIff` | loader/file.c:146-208 | The reader returns the size asked for if and only if the chain ends with the cluster in which it is reached, or before, or the size is a multiple of the cluster size |
| `Loader.LoadFile` | loader/file.c:186-208 | load_file returns 0 if and only if the first matching directory entry names a file with such a chain and size; as far as the chain goes, the file's bytes are then in memory |
| `Loader.LoadedRightIff` | loader/file.c:146-208 | It reports success on a chain that holds the whole file if and only if the chain ends with the file's last cluster or the size is that of whole clusters |
| `Loader.ShortFilesAccepted` | loader/file.c:162-176 | A chain too short for the file is not noticed: success is reported with fewer bytes of the file |
| `Loader.LoaderFails` | loader/file.c:146-208 | A volume with a directory and a chain of two clusters of 512 bytes, from which the file A of 100 bytes is refused and the file B of 2000 bytes reported as loaded |
| `Loader.SampleFound` | file.c:119-147 | On that volume the file A is found behind a long-name entry of the same name, and the deleted file is not found |
| `Loader.ReadSample` | file.c:217-257 | The kernel's reader delivers from it the last byte of one cluster and the first of the next |
| `KeyBuffer.RingWrite` | keyboard.c:35-46 | The ring is full exactly with 499 characters; else the character joins at the end |
| `KeyBuffer.RingTake` | keyboard.c:48-58 | The character at the front is the oldest, the rest stay in order |
| `KeyBuffer.KeyBuffer.WriteKeyBuffer` | keyboard.c:35-46 | The ring is a queue of 499: a character that does not fit is dropped |
| `KeyBuffer.KeyBuffer.BeginRead` | keyboard.c:48-54 | The reader saves the front and sleeps exactly if no character waits |
| `KeyBuffer.KeyBuffer.TakeKey` | keyboard.c:56-57 | The character returned is the one in the saved place, which is the oldest one if the front is still there and a character waits |
| `KeyBuffer.WrittenWaits` | keyboard.c:35-46 | Writing puts the character behind those waiting, unless there are 499, and leaves the front |
| `KeyBuffer.AdvancedWaits` | keyboard.c:56-57 | Advancing the front removes the oldest character waiting |
| `Crc.ShiftsLinear` | config/bochs/crc.cc:46-50 | Shifting the register is linear over exclusive or |
| `Crc.TableLinear` | config/bochs/crc.cc:41-51 | So is the table |
| `Crc.ByteStepTakesBits` | config/bochs/crc.cc:62-63 | One table lookup does the work of eight bits of the shift register |
| `Crc.SecondEntryTells` | config/bochs/crc.cc:58-59 | The second entry is zero exactly as long as the table has not been built |
| `Crc.GeneratorIsPoly` | config/bochs/crc.cc:36-51 | The bits of the polynomial are the powers of x in the generator of section 3.2.9 of IEEE 802.3 |
| `Crc.RegisterDivides` | config/bochs/crc.cc:36-51 | The shift register's contents after a message are the remainder of its long division by the generator |
| `Crc.Crc.InitCrc32` | config/bochs/crc.cc:41-51 | Every entry is its index shifted through the register |
| `Crc.Crc.Crc32` | config/bochs/crc.cc:53-65 | The table is built by the first call and by no later one; the result is the complement of the register after all bits of the buffer |
| `Crc.CrcIsRemainder` | config/bochs/crc.cc:53-65 | For every buffer that is the complemented remainder of the message with its first 32 bits complemented and 32 zeros behind it, as section 3.2.9 of IEEE 802.3 defines it |
| `PciRegions.BehindCursorIff` | config/bochs/bios/rombios32.c:1019 | Whatever the size, the region begins at or behind the cursor if and only if adding the size to the cursor does not wrap |
| `PciRegions.Placed` | config/bochs/bios/rombios32.c:1019 | For a power-of-two size the bit mask gives the next multiple of the size |
| `PciRegions.OneMoreInOrder` | config/bochs/bios/rombios32.c:989-1030 | A region for which nothing wraps lies behind all regions given out before, and is aligned if its size is a power of two |
| `PciRegions.PciBios.AssignRegion` | config/bochs/bios/rombios32.c:989-1030 | Bit 0 of the register and the bus choose one of four cursors, the region begins at that cursor aligned up, and the cursor moves behind it, by 16 ports or 64 KB at least, while the others stay; over all calls, in every space in which nothing has wrapped, the regions are increasing and disjoint, and aligned where their sizes are powers of two |
| `PciRegions.SizeIsPowerIff` | config/bochs/bios/rombios32.c:1003 | The size read is a power of two if and only if, of bits 4 to 31 read back, some bit is one and every bit above a one is one |
| `PciRegions.RegisterAlignsIff` | config/bochs/bios/rombios32.c:1003-1019 | Under exactly this condition on the bits the regions are aligned to their size, at every cursor to which the size can be added |
| `PciRegions.FlagsOnly` | config/bochs/bios/rombios32.c:1003-1028 | A register that reads back nothing but flags has size 0, gets address 0 and takes the cursor back to the bottom of the space |
| `PciRegions.NarrowRegister` | config/bochs/bios/rombios32.c:1003-1019 | A register that decodes fewer than 32 address bits yields a size that is no power of two |
| `PciRegions.NarrowRegistersMisplace` | config/bochs/bios/rombios32.c:1003-1030 | Two registers that read back 0x0000fff1 get regions that are misaligned and overlap, as sized, and the next one that decodes 32 bits an I/O address above 0xffff |
| `BiosTables.Complement` | config/bochs/bios/rombios32.c:1532-1539 | The byte that makes a range sum to 0 mod 256 |
| `BiosTables.PkgLengthDecodes` | config/bochs/bios/rombios32.c:1574-1586 | In one byte or two, the package length decodes to exactly the bytes from itself to the end |
| `BiosTables.ScopeDecodes` | config/bochs/bios/rombios32.c:1574-1610 | For every number of CPUs the scope's length reaches exactly to its end |
| `BiosTables.ProcessorDecodes` | config/bochs/bios/rombios32.c:1593-1610 | So does the length of each processor in it |
| `BiosTables.NamesDistinct` | config/bochs/bios/rombios32.c:1593-1603 | No two processors have the same name |
| `BiosTables.BuildTableHeader` | config/bochs/bios/rombios32.c:1541-1563 | Signature, true length, revision, OEM and creator fields in the header, and the whole table sums to 0 |
| `BiosTables.BuildProcessorSsdt` | config/bochs/bios/rombios32.c:1565-1616 | The table in memory is header, with all its fields, and scope for at most 255 CPUs, with its true length and sum 0, and that length is returned; each processor's object has its number in name and identifier and its 6 register bytes at 0xb010 |
| `BiosTables.EntryPointInit` | config/bochs/bios/rombios32.c:1956-1993 | Both halves of the SMBIOS entry point, and the whole, sum to 0; anchors, length, versions and every argument are in their places and nothing around it changes |
| `BiosTables.DevicesTile` | config/bochs/bios/rombios32.c:2208-2251 | Devices that share out the memory tile it exactly if and only if there are at most 4 TB |
| `BiosTables.MemoryDevices` | config/bochs/bios/rombios32.c:2314-2324 | The devices emitted share out the memory, all but the last full, each at the 32-bit address where those before it end; they tile it exactly if and only if there are at most 4 TB |
| `BiosTables.MemoryBelow` | config/bochs/bios/rombios32.c:544-560 | No CMOS contents make the memory larger than a quarter of that |
| `BiosTables.KnownMachine` | config/bochs/bios/rombios32.c:544-560 | 128 MB below 4 GB and 1 GB above are read from the CMOS bytes that say so |
| `BiosTables.SmallMachine` | config/bochs/bios/rombios32.c:549-551 | So are 8 MB |
| `BiosTables.ProbedDevices` | config/bochs/bios/rombios32.c:2285-2324 | Hence for all CMOS contents the devices tile the memory that ram_probe finds, in whole MB, exactly |

## Left out

- PcSystem.PcSystem.TickN: intervals are below 2^63 and the time ends at 2^63, so that no 64-bit deadline wraps; n is below 2^32 as in the source.
- Loader.LoadFile: the file's chain ends and lies on the volume, and its size and one cluster more do not exceed 32 bits nor the room at the address.
- PcSystem.PcSystem.Initialize: the null timer is modelled without a handler (the source's does nothing without plugins), the function and object of a handler are one value, and timer ids and parameters are omitted.
- PcSystem.PcSystem.Perform: callbacks are decided by the handler, the slot and the whole board; callbacks that tick or read the wall clock are not modelled.
- PcSystem.PcSystem.TimeUsecSequential: the division of ticks by ticks per microsecond is exact, not rounded as a double is, and times stay below 2^64.
- Memory.Memory.MapPages: an end in the last page but one of the address space, with which the source's loop never ends by its own test, is excluded; the physical addresses lie below 1 GB and no page visited is mapped before, as the ASSERTs demand; attributes are below 4096 and present.
- Access.MappedAllowed: the attribute does not have the size bit; no caller's has.
- Memory.Memory.FreePages: the loop ends by its own test before the address wraps back to where it started, and the pages it visits belong to the address space.
- Memory.Memory.CopyUvm: user programs writing to their page between kernel entries is not modelled; the contents are those at the time of the fork.
- Memory.Memory.FreeRegion: the region starts below the last two pages and ends below the last page of the address space, and its frames have not been given away before, which the E820 parsing in init_memory has to see to; that parsing and the memory counters are not modelled.
- Kernel.Kernel.Fork: requires a free slot and 7 free frames; the source halts in an ASSERT otherwise.
- KernelRuns.StepKeepsOk: pids stay below 2^31 and there is one keyboard reader at a time; with several, a resumed reader can find the ring empty.
- Fat.ReadRawData: positions and sizes do not wrap 32 bits, the chain's clusters lie on the volume, and a read behind the last cluster, where the ASSERT fails, is excluded.
- FileTables.FileTables.ReadFile: the 32-bit sum of position and size does not wrap, the chain's clusters lie on the volume, and a read behind the last cluster, where the ASSERT fails, is excluded.
- FileTables.FileTables.CloseFile: closing an empty slot, which follows a NULL pointer in the source, is excluded.
- PciRegions.PciBios.AssignRegion: what a register reads back is a parameter; setting the register, expansion ROMs, interrupt routing and the devices with fixed addresses are not modelled.
- BiosTables.MemoryDevices: of the SMBIOS structures 17, 19 and 20 only sizes and addresses; the other structures are not modelled.
- BiosTables.RamProbe: the CMOS bytes are a parameter, and the 32-bit sum for memory below 4 GB wraps.
- User-mode execution, trap frames, the TSS, CR3, descriptor tables, port I/O and the assembly files: a context switch is a change of the current process.
- exec: it combines open, read and close of the current process, all of which are modelled.
- Scan codes and shift keys in keyboard_read: the ring is modelled from the character on.
- print.c, the shell and the user programs, ls, totalmem, the memory-size system calls: user interface.
- Conversions from seconds to ticks, ticks made inside callbacks, the other machinery of Bochs (configuration, GUI, plugins, debugger), biossums.c.
- The rest of rombios32.c: RSDP, RSDT, FADT and the interrupt tables repeat the checksum idea.
