# A verified model of the ideal-linux-x86 kernel core

This project models the scheduler of the kernel with its semaphores, mutexes and linked lists, and
five independent parts: number printing and formatted output, the ELF loader, page tables, the page
bitmap and the descriptor table. It proves what these parts keep over whole runs and what each
computes. Nothing of the original program is executed here.

`dafny verify dfyconfig.toml` checks everything.

## How it is built

**The scheduler on values.** `SchedModel` is the scheduler as a state machine. Every kernel operation
runs with interrupts off, so it is one step up to its task switch. A switch suspends the caller inside
`task_dispatch`; all that a suspended caller may still have to do is the second half of the timer
interrupt, the walk over the sleepers and the last dispatch. `pending` is the set of tasks that are
suspended there. `SchedInv` and `SchedSteps` prove the invariant for every operation, `SchedRuns`,
`SchedTime` and `SchedSync` prove the properties of arbitrary runs (any interleaving of timer
interrupts, yields, sleeps, semaphore and mutex calls and task creations), `SchedTurns` says who runs
after each operation and how tasks take turns, and `SchedWalk` relates the walk over the sleep list, one
task at a time, to what it amounts to.

**The scheduler on objects.** `Lists` is the intrusive doubly linked list with its pointer updates.
`Kernel` has the objects that the code updates in place, and the operations on tasks; `Semaphores` and
`Mutexes` have theirs, and `KernelSteps` has what the parts of an operation amount to on states. The
predicate `Represents(s)` ties the objects to a state `s` of the state machine: the links of each list
are those of the tasks that `s` has there, in order, and the fields agree. Each operation is proved to
take objects that represent `s` to objects that represent `Step(s, op)`; `RepresentsOne` says that the
objects leave no choice of state. So every statement about runs of the state machine is one about the
objects. While booting there is no current task: the constructor of the manager gives the state `BOOT`,
with the idle task alone, and `TaskFirstInit` leads from there to the start of all runs. The states are
ghost arguments of the methods. The modifier `new` on the parameters of two-state lemmas only says that
they need not be older than the earlier state.

**The rest.** `Klib` and `Format` print into character arrays and are proved against recursive
definitions of the text; `Bitmaps` packs bits into bytes; `Paging` keeps the words of directories and
tables by frame; `Elf` works on one flat array of bytes; `Gdt` on an array of descriptors. `Bits` has
the C operator `|` on unsigned numbers, `Ints` the ranges of the C integers, `Seqs` duplicate-free
sequences.

**Where the code does not do what its comments or callers expect**, the code is modelled and the exact
condition is proved:

- Sleeping for 0 milliseconds, or for so many that rounding up overflows 32 bits, takes the caller off
  every list for good (`TaskConservation`, `NullSleepWhen`, `LostForever`).
- The bitmap scan leaves the last bit of a run of two or more unchecked. It answers rightly if and only
  if every stretch that is one bit short comes behind a whole run (`ScanIsRightWhen`,
  `LastBitUnchecked`).
- The bitmap scan then clears the run instead of setting it; a search for one clear bit finds the same
  bit again (`OneBitAgain`, `NextRunShares`).
- A limit above 20 bits is rounded up to whole pages unless it ends one (`LimitComesBack`).
- Task creation ignores that the descriptor table is full: `tss_init` returns -1 from the 254th task on,
  and the task's selector field stays what it was (`InitTss`, `TaskSelectors`).

**Assumption.** The body of `find_pte` is not in the repository. `Paging.AddressSpaces.FindPte` is
written from its use, the index functions of `mmu.h` and section 4.3 (32-bit paging) of the Intel
Software Developer's Manual, Volume 3A: it uses the table of a present directory entry, and otherwise
takes a frame from a supply of fresh ones, zeroes it and enters it. Of the flags it sets
only that they include the present bit is assumed.

## Model

| member | source | states |
|---|---|---|
| SchedRuns.RunInv | source/kernel/core/task.c:103-208 | The invariant (placement of every task, time slices from 1 to 10, sleep states, semaphores, mutexes, tick balance, processor at the head of the ready list) holds after every run from every state that has it |
| SchedRuns.StartInv | source/kernel/core/task.c:73-101 | The invariant holds after booting, with the first task current and alone on the ready list |
| SchedSteps.StepInv | source/kernel/core/task.c:129-208 | Every operation keeps the invariant; a creation puts the new task on a list, a null sleep takes the caller off all lists, and otherwise the same tasks are on lists as before |
| SchedInv.DispatchOnce | source/kernel/core/task.c:144-157 | A dispatch switches at most once: a task resumed in the middle of its timer interrupt walks the sleepers and its own dispatch returns to it |
| SchedInv.WalkCore | source/kernel/core/task.c:170-179 | The walk over the sleepers keeps the invariant and the head of the ready list |
| SchedRuns.TickConservation | source/kernel/core/task.c:159-181 | In every run the timer interrupts are the completed walks plus the tasks suspended before their walk, and those tasks are ready but not running |
| SchedRuns.WorkConservation | source/kernel/core/task.c:118-157 | In every run the processor runs the head of the ready list, and idles exactly when the list is empty |
| SchedRuns.WakingDoesNotSwitch | source/kernel/ipc/sem.c:25-37 | A notification or an unlock never takes the processor from its caller |
| SchedRuns.TaskConservation | source/kernel/core/task.c:103-208 | In every run no task is on two lists or twice on one, the idle task is on none, sleeping is exactly being on the sleep list, and every other task is on exactly one list if and only if nobody slept for 0 or more than 2^32 - 10 milliseconds |
| SchedRuns.NullSleepWhen | source/kernel/core/task.c:183-186 | The durations that round to no ticks: 0 and those above 2^32 - 10 |
| SchedRuns.LostForever | source/kernel/core/task.c:199-208 | A task that is on no list is on none in every later state and never runs again |
| SchedRuns.ZeroSleepLosesTheCaller | source/kernel/core/task.c:199-208 | Sleeping for 0 milliseconds right after booting leaves the first task on no list |
| SchedTime.StepNearer | source/kernel/core/task.c:103-181 | For a ready task that is not running, the slice ticks of the tasks ahead of it never grow in a step and drop at every timer interrupt |
| SchedTime.BoundedWaiting | source/kernel/core/task.c:103-181 | A task at position k of the ready list runs within 10 k timer interrupts, whatever the others do |
| SchedTime.TickWalksOnce | source/kernel/core/task.c:159-181 | A timer interrupt that walks the sleepers at once does not do a second walk in its dispatch |
| SchedTime.StepElapsed | source/kernel/core/task.c:159-181 | A step completes no walk or one, and a sleeper's ticks go down by exactly that number, or it becomes ready at the walk that uses up its last tick |
| SchedTime.SleepLasts | source/kernel/core/task.c:170-208 | A task that sleeps for n ticks stays on the sleep list, with n less the completed walks left, until n walks have been completed since |
| SchedTime.SleepEnds | source/kernel/core/task.c:170-208 | The step that completes the n-th walk makes the sleeper ready, even if it is the dispatch of the sleep itself; the timer interrupts in between are n, less the walks outstanding at the start, plus those outstanding at the end |
| SchedTime.SleepEndsWhen | source/kernel/core/task.c:159-208 | A sleep of n ticks ends during a run if and only if the timer interrupts of the run and the walks outstanding at its start are at least n and the walks outstanding at its end |
| SchedTime.SleepEndsInTime | source/kernel/core/task.c:159-208 | Every sleep of n ticks ends at the latest when the timer has interrupted n times and once more per task |
| SchedTime.SleepTicksRoundUp | source/kernel/core/task.c:199-204 | For all other durations the ticks are the milliseconds, rounded up to tens, by ten |
| SchedTime.SleepInMilliseconds | source/kernel/core/task.c:159-208 | Nobody who sleeps for ms milliseconds is woken before ten times the interrupts and the walks outstanding at the start make up ms, and everybody is by ms + 9 and ten more per task |
| SchedTurns.WhoRuns | source/kernel/core/task.c:103-208 | In any state with a current task: the processor passes on exactly at a yield in company, a sleep, a wait at an empty semaphore, a lock of a mutex that another task owns, or the interrupt that uses up the slice in company; then the second ready task runs, or the idle task if there is none; who stays ready, who joins at the end and in what order |
| SchedTurns.StepSlices | source/kernel/core/task.c:159-167 | Only a timer interrupt changes a slice, that of the current task: one tick less, or ten again when it is used up |
| SchedTurns.IdleUntilWoken | source/kernel/core/task.c:159-181 | The idle task is left exactly at the interrupt at which a sleeper has one tick left, for the first such sleeper |
| SchedTurns.NewTaskWaitsItsTurn | source/kernel/core/task.c:50-62 | A new task is ready, last in line, with a slice of ten ticks, and does not take the processor |
| SchedTurns.YieldTurns | source/kernel/core/task.c:129-142 | With two or more ready tasks a yield makes the second one current and puts the caller last; alone it changes nothing |
| SchedTurns.SliceKept | source/kernel/core/task.c:159-168 | A task with m ticks of its slice left that does not give way keeps the processor for m - 1 interrupts, whatever else happens |
| SchedTurns.SliceEnds | source/kernel/core/task.c:159-168 | At the m-th interrupt it has a new slice of ten ticks and loses the processor to the next ready task, exactly if there is one |
| SchedTurns.RoundRobin | source/kernel/core/task.c:159-181 | While nobody sleeps and only the timer interrupts, k ready tasks with whole slices run for ten interrupts each in turn: after n interrupts it is the turn of task n / 10 mod k |
| SchedTurns.TwoTasksTakeTurns | source/kernel/core/task.c:37-82 | After booting and creating task 2 the first task runs for ten interrupts, then task 2 for ten, and so on |
| SchedSync.MutualExclusion | source/kernel/ipc/mutex.c:10-58 | In every run only the owner of a mutex has a hold depth, which is the lock count; the count is 0 exactly without owner; tasks wait only at a locked mutex, and the owner is not among them |
| SchedSync.MutexFifo | source/kernel/ipc/mutex.c:10-58 | After n final unlocks in any run, the first n of the waiters have been handed the mutex, in order, and the others are still ahead of all who came later |
| SchedSync.MutexHandoff | source/kernel/ipc/mutex.c:26-58 | The waiter at position k waits through k final unlocks and is made owner, once locked, and ready by the next one |
| SchedSync.NoBarging | source/kernel/ipc/mutex.c:10-58 | While tasks wait, no step gives the mutex to anyone but the first of them |
| SchedSync.HoldCount | source/kernel/ipc/mutex.c:10-35 | While a task owns a mutex the count goes up by one with each of its lock calls and down by one with each of its unlock calls, and with nothing else |
| SchedSync.NestedLocks | source/kernel/ipc/mutex.c:10-58 | A task that took a free mutex loses it at exactly one operation: its own unlock call that matches the first lock call |
| SchedSync.NewOnesAreFree | source/kernel/ipc/mutex.c:4-8 | A new mutex is free, a new semaphore has its count, nothing waits at them, and nothing else changes |
| SchedSync.SemConservation | source/kernel/ipc/sem.c:6-37 | From creation with init, count plus waits let through is init plus notifications; every wait was let through or is queued; with init >= 0 the count is never negative and tasks queue only at count 0 |
| SchedSync.SemFifo | source/kernel/ipc/sem.c:12-37 | After n notifications in any run, the first n of the waiters have been served, in order, and the others are still ahead of all who came later |
| SchedSync.SemService | source/kernel/ipc/sem.c:25-37 | The waiter at position k waits through k notifications and is ready after the next one |
| SchedWalk.WalkPrefixWakes | source/kernel/core/task.c:170-179 | Counting down, taking off the sleep list and making ready the next sleeper, if due, extends the walk by that sleeper |
| SchedWalk.WalkPrefixStays | source/kernel/core/task.c:170-179 | Counting down the next sleeper, if not due, extends the walk by that sleeper |
| SchedWalk.WalkPrefixEnd | source/kernel/core/task.c:170-179 | The walk that has passed all sleepers found at the start is the whole walk of the state machine |
| Lists.List.InsertFirst | source/kernel/tools/list.c:9-22 | Prepends the link; the list stays well formed, all other lists and links are untouched |
| Lists.List.InsertLast | source/kernel/tools/list.c:24-36 | Appends the link; the list stays well formed, all other lists and links are untouched |
| Lists.List.RemoveFirst | source/kernel/tools/list.c:38-54 | Takes the first link off and unlinks it fully; returns null on an empty list; all other lists and links are untouched |
| Lists.List.Remove | source/kernel/tools/list.c:56-73 | Takes the link out of its position and unlinks it fully; all other lists and links are untouched |
| Lists.List.LinksMirror | source/kernel/tools/list.c:9-73 | In a well-formed list pre and next are inverse, and null exactly at the ends that first and last name |
| Kernel.TaskManager.RepresentsOne | source/kernel/include/core/task.h:10-46 | The objects determine the state they represent, up to its history |
| Kernel.TaskManager.constructor | source/kernel/core/task.c:95-101 | Empty lists, the idle task created but on none of them, and no current task |
| Kernel.TaskManager.TaskFirstInit | source/kernel/core/task.c:73-82 | Creates the first task, which becomes ready and the current one, with a slice of ten ticks; that is the boot state, and it has the invariant |
| Kernel.TaskManager.TaskInit | source/kernel/core/task.c:37-64 | A new task, ready at the end of the ready list with a slice of ten ticks, as the step of the state machine says; the invariant holds |
| Kernel.TaskManager.TaskSetReady | source/kernel/core/task.c:103-109 | Appends a task that is on no list to the ready list and marks it ready; nothing for the idle task |
| Kernel.TaskManager.TaskSetBlock | source/kernel/core/task.c:111-116 | Takes a ready task off the ready list; nothing for the idle task |
| Kernel.TaskManager.TaskNextRun | source/kernel/core/task.c:118-124 | The task of the first link of the ready list, or the idle task |
| Kernel.TaskManager.TaskDispatch | source/kernel/core/task.c:144-157 | Carries out the dispatch of the state machine, with the rest of a suspended timer interrupt if one is resumed; returns to its caller exactly if there was no switch |
| Kernel.TaskManager.SchedYield | source/kernel/core/task.c:129-142 | Carries out a yield and keeps the invariant |
| Kernel.TaskManager.TaskTimeTick | source/kernel/core/task.c:159-181 | Carries out a timer interrupt up to its switch and keeps the invariant |
| Kernel.TaskManager.SleepWalk | source/kernel/core/task.c:170-179 | The loop over the sleep list, which unlinks and relinks the nodes it stands on, terminates and does exactly one walk |
| Kernel.TaskManager.TaskSetSleep | source/kernel/core/task.c:183-192 | Puts a task that is on no list on the sleep list with its ticks; nothing for 0 ticks |
| Kernel.TaskManager.TaskSetWakeup | source/kernel/core/task.c:194-197 | Takes a sleeper off the sleep list |
| Kernel.TaskManager.Sleep | source/kernel/core/task.c:199-208 | Carries out a sleep and keeps the invariant |
| Semaphores.SemInit | source/kernel/ipc/sem.c:6-11 | A new semaphore with that count and no waiters |
| Semaphores.SemWait | source/kernel/ipc/sem.c:12-24 | Carries out a wait and keeps the invariant |
| Semaphores.SemNotify | source/kernel/ipc/sem.c:25-37 | Carries out a notification and keeps the invariant |
| Mutexes.MutexInit | source/kernel/ipc/mutex.c:4-8 | A new free mutex with no waiters |
| Mutexes.MutexLock | source/kernel/ipc/mutex.c:10-24 | Carries out a lock and keeps the invariant |
| Mutexes.MutexUnlock | source/kernel/ipc/mutex.c:26-58 | Carries out an unlock, with handoff to the first waiter, and keeps the invariant |
| Klib.Strlen | source/kernel/tools/klib.c:47-56 | The number of characters before the first NUL; 0 for a null pointer |
| Klib.Memset | source/kernel/tools/klib.c:65-72 | The first size elements are set, the others unchanged; nothing for a null pointer |
| Klib.Itoa | source/kernel/tools/klib.c:87-116 | Writes the printed number and a NUL at the place and nothing else; only a NUL for an unsupported base |
| Klib.PrintedReadsBack | source/kernel/tools/klib.c:87-116 | What is printed reads back as the number in base 10, negative numbers and the least one included, and as its magnitude in bases 2, 8 and 16; in any other base nothing is printed |
| Klib.PrintedCanonical | source/kernel/tools/klib.c:87-116 | Only digits of the base behind the sign, at least one, no leading zero, no NUL |
| Klib.PrintedFits | source/kernel/tools/klib.c:87-116 | With the NUL a 32-bit number takes at most 33 characters, and at most 12 in bases 10 and 16 |
| Format.Vsprintf | source/kernel/tools/klib.c:118-162 | Writes exactly the recursive rendering of format and arguments; behind it stands a NUL exactly if the last thing printed was a number, and everything else is unchanged |
| Format.RenderConcat | source/kernel/tools/klib.c:118-162 | Two formats in sequence print their texts in sequence, the second from the arguments the first left, whatever they are, and need exactly the arguments both need |
| Format.UnknownSpecifier | source/kernel/tools/klib.c:132-155 | A specifier other than s, d, c and x, anywhere in a format, prints nothing and takes no argument |
| Format.NumberReadsBack | source/kernel/tools/klib.c:139-152 | Behind any format, a number printed by %d reads back, and one printed by %x reads back in base 16 as its magnitude |
| Format.CharIsLowByte | source/kernel/tools/klib.c:144-147 | Behind any format, %c prints one character, the low byte of its argument |
| Format.StringIsPrinted | source/kernel/tools/klib.c:132-138 | Behind any format, %s prints the characters of its argument before the first NUL, in order, and nothing for a null pointer |
| Format.ZeroedBuffer | source/kernel/tools/log.c:31-36 | On a zeroed buffer the rendering is followed by zeros only |
| Format.LogLine | source/kernel/tools/log.c:30-51 | What is sent is the rendering up to its first NUL and a line end |
| Bitmaps.Bitmap.constructor | source/kernel/tools/bitmap.c:6-12 | All bits have the initial value; bytes beyond them are unchanged |
| Bitmaps.Bitmap.ByteCount | source/kernel/tools/bitmap.c:3-5 | The least number of bytes that hold the bits |
| Bitmaps.Bitmap.GetBit | source/kernel/tools/bitmap.c:14-16 | The bit of the unpacked sequence, as 0 or 1 |
| Bitmaps.Bitmap.SetBit | source/kernel/tools/bitmap.c:17-26 | Exactly the bits of the range that exist take the value, which is set only for the argument 1; all others are kept |
| Bitmaps.Bitmap.AllocNbits | source/kernel/tools/bitmap.c:35-75 | Returns the least position from the search index on whose next max(1, count - 1) bits exist and equal the argument, or -1; clears count bits there; the search index moves to the last of them, or to the end |
| Bitmaps.FirstRun | source/kernel/tools/bitmap.c:35-75 | The result is such a position and no earlier one is, or there is none |
| Bitmaps.ScanIsRightWhen | source/kernel/tools/bitmap.c:35-75 | The scan answers with a whole run or with -1 if and only if every stretch that is one bit short comes behind a whole run; then it is the first whole run, and -1 only if there is none |
| Bitmaps.LastBitUnchecked | source/kernel/tools/bitmap.c:51-71 | An input with a stretch that is one bit short, and its wrong answer |
| Bitmaps.OneBitAgain | source/kernel/tools/bitmap.c:66-71 | The next search for one clear bit returns the same position |
| Bitmaps.NextRunShares | source/kernel/tools/bitmap.c:66-71 | When exactly the next run of clear bits shares its first bit with the last of the previous one |
| Bitmaps.UnpackSet | source/kernel/tools/bitmap.c:17-26 | Changing one bit of one byte changes that bit of the sequence only |
| Bitmaps.BitOrder | source/kernel/tools/bitmap.c:14-26 | Bit i is the bit i mod 8, counted from the lowest, of byte i / 8 |
| Paging.IndexesOfPage | source/kernel/cpu/mmu.h:61-78 | Directory and table index are quotient and remainder of the page number, and in range |
| Paging.AddressSpaces.FindPte | source/kernel/core/memory.c:88-92 | Assumed (see above); makes a missing table without changing any translation, fails only if there is no frame |
| Paging.AddressSpaces.CreateMap | source/kernel/core/memory.c:84-106 | Maps the pages in order; afterwards the first ones translate to their entries and all other pages of the directory as before; done, out of frames, or stopped at a page that was mapped, which cannot happen if none was |
| Paging.MappingTranslates | source/kernel/cpu/mmu.h:64-92 | An aligned range that does not wrap translates byte for byte to its frames with the given permissions, and every other address as before |
| Paging.EntryParts | source/kernel/cpu/mmu.h:83-92 | Address and permissions of an entry are those it was made of |
| Paging.AddressSpaces.CreateUvm | source/kernel/core/memory.c:163-178 | A new directory that translates addresses below 0x80000000 like the kernel's and no others; 0 exactly if there is no frame |
| Paging.LowerHalfKept | source/kernel/core/memory.c:170-175 | Maps from 0x80000000 on keep the lower half of such a directory, and the kernel's, as they were |
| Paging.MapsAreIsolated | source/kernel/core/memory.c:84-106 | Maps from 0x80000000 on in one address space change no translation of another and keep the two apart |
| Paging.MapKeepsSeparate | source/kernel/core/memory.c:84-106 | Any number of address spaces that share the kernel's half and are otherwise apart stay so when one of them maps from 0x80000000 on |
| Paging.NewSpaceSeparate | source/kernel/core/memory.c:163-178 | A new address space is apart from all that there are |
| Paging.AddrAlloc.constructor | source/kernel/core/memory.c:36-43 | A bitmap with one clear bit for each whole page of the range |
| Paging.AddrAlloc.FreePage | source/kernel/core/memory.c:64-69 | Clears the bits of the pages from the address on |
| Paging.DestroyUvm | source/kernel/core/memory.c:183-210 | Frees the pages and tables of the user slots in order, then the directory |
| Paging.TeardownExact | source/kernel/core/memory.c:183-210 | A bit is cleared if and only if it stands for the directory, for a present table of a user slot or for a page that a user address translates to |
| Paging.UserHalfIs | source/kernel/core/memory.c:190-206 | What the nested loops visit is what user addresses translate to, and the tables for it |
| Paging.OwnBit | source/kernel/core/memory.c:66-66 | In the allocator's range each frame has its own bit |
| Elf.ReloadElfFile | source/loader/loader_32.c:29-60 | Without the magic number the result is 0 and memory is unchanged; otherwise it is the number in bytes 24 to 27 of the file, and every byte of memory is that of the last segment that covers it |
| Elf.LoadSegment | source/loader/loader_32.c:46-56 | Copies the file part and zeroes the rest of the segment, and nothing else |
| Elf.SeparateSegments | source/loader/loader_32.c:38-57 | With segments that share no memory each holds its file bytes followed by zeros, and all other memory is unchanged |
| Elf.FieldsKept | source/loader/loader_32.c:32-41 | Header fields read the same as long as the file's bytes are the same |
| Elf.MagicBytes | source/loader/loader_32.c:32-36 | An ELF file is what begins with 0x7f and the letters ELF |
| Elf.FileReadsBack | source/comm/elf.h:26-54 | A file laid out from an entry point and program headers, byte by byte, reads back as those |
| Elf.LoadedImage | source/loader/loader_32.c:38-57 | For such a file, with segments that share no memory: after loading, each segment has its bytes of the file and then zeros, and all other memory is as before |
| Gdt.DescriptorTable.SetSegment | source/kernel/cpu/cpu.c:10-23 | Stores the encoded descriptor in the slot of the selector and nothing else |
| Gdt.EncodeDecode | source/kernel/cpu/cpu.c:10-23 | For any base, limit and attributes, decoded by section 3.4.5 of the Intel Software Developer's Manual, Volume 3A: base and flags come back, the unit is a page if the attributes say so or the limit has more than 20 bits, the limit field is that of the limit joined with the attribute bits in its place |
| Gdt.LimitComesBack | source/kernel/cpu/cpu.c:10-23 | With attributes that leave the limit bits and the unit free the limit comes back, or is rounded up to whole pages if it has more than 20 bits, exactly when which; a limit of at most 20 bits counts pages if the attributes set that unit |
| Gdt.KernelSegment | source/kernel/cpu/cpu.c:62-70 | The kernel's segments start at 0 and cover all 4 GB |
| Gdt.InitialSegments | source/kernel/cpu/cpu.c:57-70 | The attributes are 0xcf9a for code and 0xcf92 for data, with the flags they decode to; all other descriptors are zero |
| Gdt.DescriptorTable.AllocDesc | source/kernel/cpu/cpu.c:35-51 | The selector of the first free slot from 1 on, or -1 |
| Gdt.FirstFree | source/kernel/cpu/cpu.c:39-47 | The slot is free and all earlier ones are taken |
| Gdt.DescriptorTable.InitGdt | source/kernel/cpu/cpu.c:57-74 | Whatever the table held: slot 1 is the kernel's code segment and slot 2 its data segment, each with base 0 and limit 0xffffffff, and all other slots are free |
| Gdt.DescriptorTable.InitTss | source/kernel/core/task.c:13-35 | Takes the first free slot for the task's state segment and returns 0; or returns -1 and leaves table and task as they were |
| Gdt.TaskSelectors | source/kernel/core/task.c:13-35 | In any run of task creations after booting the i-th task gets the selector 8 (3 + i) for i < 253 and from then on keeps the one it had; every descriptor keeps giving its own task's segment, with 104 as its limit |
| Bits.OrAdds | source/kernel/core/memory.c:99-99 | Joining an aligned address and flags by the operator adds them |
| Bits.OrBits | source/kernel/core/memory.c:99-99 | The operator sets exactly the bits that one of its operands has |

## Left out

- Logging as a scheduling event: `log_printf` locks a mutex inside the dispatcher, the timer interrupt and the bitmap scan; those calls are no-ops here.
- Creating semaphores, mutexes and further tasks before there is a current task: of booting only the manager's own set-up and the first task are modelled.
- More than 253 tasks: `Spawn` is not bounded, but a switch to a task that got no selector of its own would jump through whatever its field holds. The statements about runs suppose that a switch reaches its task.
- The list of all tasks, task names, stacks and the register fields of the task state segment: nothing modelled reads them.
- Interrupt masks, ports, PIC and timer set-up, control registers, assembly files and disk reads: only that operations are atomic and that a switch suspends its caller is used.
- Kernel.TaskManager.TaskInit: the selector is set up in `Gdt` and the list of all tasks is left out; the task's memory is allocated by the method, the code gets it from its caller; a task is found from its link by an identity stored in the link instead of address arithmetic.
- Semaphores.SemInit: the semaphore's memory is allocated by the method, and an object is initialised only once.
- Mutexes.MutexInit: the same holds for mutexes.
- Semaphores.SemNotify: the count stays below the largest `int`; the C code has no check and signed overflow is undefined.
- Mutexes.MutexLock: the same holds for the lock count.
- Kernel.TaskManager.TaskTimeTick: the history counts of interrupts and walks are unbounded; the code has no such counters.
- Deadlock freedom across several mutexes: the code does not promise it, and tasks can wait for each other for ever.
- Lists.List.Remove: the node must be on this list; the code does not check it, and all its callers see to it.
- Klib.Memset: a negative size, with which the code's loop would run through memory, is excluded.
- Format.Vsprintf: the arguments must suit the specifiers and the text must fit the buffer, as in C; the code checks neither.
- Format.LogLine: the mutex around the output and the wait for the port are left out; the text must be shorter than the 128 bytes of the buffer.
- Bitmaps.Bitmap.AllocNbits: the static search index is an argument and a result, since one variable serves all bitmaps in the code.
- Paging.AddressSpaces.FindPte: the source calls it and has no body for it, so its contract is an assumption and not a result.
- Paging.AddressSpaces.CreateMap: frames come from an assumed supply of fresh ones and not from `addr_alloc_page`, which returns the same page again (see `OneBitAgain`); that pages in use are disjoint is therefore not claimed of the code.
- Paging.DestroyUvm: a directory address of 0, for which the code stops with an assertion, is excluded; the mutex of the allocator is left out.
- Elf.ReloadElfFile: headers and contents must lie inside the file, no segment may be larger in the file than in memory, and no segment may overlap the file or end beyond memory; the code checks none of this. Its loops read the headers again for each byte, and for a segment that is larger in the file its zeroing loop runs up to the overflow of a signed counter.
- Gdt.DescriptorTable.AllocDesc: the mutex around the search is left out.
- `create_kernel_table`, `memory_init` and `total_mem_size`: they rest on linker symbols and constants of the boot loader.
- The gate descriptors and the interrupt table: stored the same way as segments, without further logic.
- `sem_count`: it reads the count and is declared to return nothing.
- `kernel_strcpy`, `kernel_strncpy`, `kernel_strncmp`, `kernel_memcmp` and `kernel_memcpy`: they would add only easy members.
- File system, processes with `fork`, system calls and terminals: the repository describes them but has no source for them.
