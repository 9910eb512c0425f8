# Verification model of SO3

A Dafny 4.11 model of the parts of the SO3 operating system and of its user programs where
correctness is hardest to see by reading: the two-level page tables, the life of a process over
those tables, the argument page, page replacement, the tic-tac-toe protocol between two processes,
and the parallel letter count.  `dafny verify dfyconfig.toml` checks all of it.

## How it is built

Code that changes things in place is modelled by methods on classes and arrays, and each method is
proved against a description on values; the laws are then proved about the descriptions.

- **Page tables** (`tables.dfy`, `mmu.dfy`, `space.dfy`, `walking.dfy`).  An L1 table has 4096 entries (Fault, Section,
  Table) and an L2 table 256 (Fault, Page), as in the short-descriptor format, section B3.5 of the
  ARMv7-A/R Architecture Reference Manual (DDI 0406).  The kernel heap that holds them is a map from
  addresses to tables, so that freeing, leaking, freeing twice and sharing a table can all be
  expressed.  `Translate` is the walk of the tables; `Mapped` and `Unmapped` describe slot by slot what
  the loops do; the main lemmas say what that means for `Translate`, which is the flat partial map, and
  for `Walk`, the processor's walk of the tables for an address, with all sizes written out.
  Addresses wrap at 2^32, so that an `end` of 0 is covered.
- **Processes** (`state.dfy`, `lifecycle.dfy`, `theorems.dfy`, `window.dfy`, `copying.dfy`, `forking.dfy`,
  `imaging.dfy`, `process.dfy`, `childlife.dfy`, `waitagain.dfy`, `reading.dfy`).  `KernelState` is a state
  machine with one step for each of root creation, fork, exec, exit, sbrk and waitpid, which the kernel runs with interrupts off.  `ProcessCode.Kernel` is the
  imperative code, each call of which is proved to be a step of that machine.  `StateOk` holds in every
  run: reference counts equal the occurrences in page lists, no frame has two owners, each address
  space owns its own live L2 tables, parents are older than their children and still there.  `Reading`
  says what this means for the bytes that processes read.
- **Argument page** (`args.dfy`).  The page is an array of bytes with little-endian words.
- **Page replacement** (`recency.dfy`, `replacement.dfy`).  First on values for any number of pages, any
  resident set and a clock of any width; then the program's byte array with its bit masks.
- **Tic-tac-toe** (`tictactoe.dfy`, `protocol.dfy`).  The search and the rules on the array of cells; the
  two processes as a transition system over two FIFO pipes, where a step is any one move of either.
- **Letter count** (`letters.dfy`).  The workers and the main thread as a transition system in which a
  counter is read and written in separate steps.

## Where the code differs from what one would expect

- `virt_to_phys_pt` keeps 12 offset bits also for a section: `MmuCode.Mmu.VirtToPhysPt` says exactly when
  its result is right, and `MmuCode.SectionMistaken` for which addresses it is not.
- `free_l1_mapping` does not free the L2 table of a slot that is covered whole: `Tables.ReleaseUndoesCreate`
  says exactly when a release after a creation leaves no table behind.
- An L2 table in use without a present entry would be freed by a release in its slot, so the same lemma
  asks that tables in the slots of the range are not empty.  Every run keeps this for the slots that a
  process owns, the fixmap slot among them.
- `__args_env < 0` never holds, so exec goes on without arguments when they do not fit:
  `ProcessCode.Kernel.Execve` gives both outcomes.
- The length of the arguments is looked at after each string has been written:
  `ArgPage.PreserveArgsAndEnv` says that memory behind the page is left alone when everything fits or
  arguments are missing, and that otherwise the zero that ends some string stands behind the page.
- `waitpid` with an explicit pid does not leave out a zombie that was waited for before:
  `Theorems.WaitTwice` says what the second wait would free, `ChildLife.LeaveGrandchild` reaches such a
  zombie from boot, and `WaitAgain.StaysUntil` follows the process list through such waits.
  `waitpid(-1)` takes the oldest zombie, whoever its parent is: `ProcessCode.Kernel.Waitpid` says exactly
  when that is a child of the caller, and `ChildLife.WaitForGrandchild` reaches a case where it is not.
- A zombie that was waited for while it still had children keeps its block: no first wait and no
  `waitpid(-1)` removes it (`Theorems.Stays`), only a second wait by pid once its children are gone
  (`WaitAgain.StaysUntil`, and `WaitAgain.RemoveAgain` for a run with such a wait).
- In LRU the first access gets time 0, like pages never accessed, and the clock wraps after 256 accesses.
  `Recency.RecencyUpTo` and `Replacement.BootRecency` say exactly when memory still holds the most
  recently accessed pages: the first access is to a page numbered above the others in memory, and the
  clock does not wrap.  Timestamps say nothing of recency after a wrap; `Recency.VictimIsLeastStamped`
  says exactly when the victim has the least timestamp even so.  Inclusion holds across wraps.
- In WSClock the age of a page is a difference of 8-bit times, so pages that are really old look young once
  the clock has wrapped: `Replacement.BootAges` says that the program throws out the right page at every
  fault of every trace of at most n accesses if and only if n is at most 256, and
  `Replacement.WrapHidesAge` has a referenced page thrown out while two were never used.
- `win` looks at cells 0-4-5 instead of 0-4-8, and for the computer at 2-5-6 instead of 2-4-6:
  `TicTacToe.JudgeIsReal` and `TicTacToe.Misjudged` for boards, `Protocol.RightResult` for whole games, with
  the runs `Protocol.WonWithoutLine` and `Protocol.WinOverlooked`.
- The search for the computer's move never looks at who has won, so it always takes the lowest empty
  cell: `TicTacToe.Game.MinMax` and `TicTacToe.Game.ComputersTurn`.

## Model

| member | source | states |
|---|---|---|
| Tables.MappedIsFlatUpdate | l5-scheduling-memory/so3/arch/arm32/mmu.c:159-190 | after a creation the pages of the range translate to consecutive frames from the base, modulo the address space, and every other page translates as before; whether a slot became a section or a table makes no difference |
| Tables.MappedLive | l5-scheduling-memory/so3/arch/arm32/mmu.c:82-96 | after a creation each table slot again refers to its own live L2 table, distinct across slots |
| Tables.MappedCompose | l5-scheduling-memory/so3/arch/arm32/mmu.c:175-183 | two creations on adjacent ranges, the second at the advanced base, are one creation on the whole range |
| Tables.UnmappedIsFlatRemoval | l5-scheduling-memory/so3/arch/arm32/mmu.c:256-279 | after a release no page of the range is mapped and every other page translates as before |
| Tables.UnmappedLive | l5-scheduling-memory/so3/arch/arm32/mmu.c:193-251 | a release keeps every remaining table slot on its own live table |
| Tables.UnmappedCompose | l5-scheduling-memory/so3/arch/arm32/mmu.c:271-278 | releases of adjacent ranges are one release of the whole range |
| Tables.ReleaseUndoesCreate | l5-scheduling-memory/so3/arch/arm32/mmu.c:159-279 | creating on a free range and releasing it again restores the L1 table and the contents of all earlier L2 tables, and restores the set of live L2 tables exactly when no wholly covered slot was mapped by pages |
| MmuCode.NextBoundary | l5-scheduling-memory/so3/arch/arm32/mmu.c:175-183 | one turn of a loop over megabytes moves on, stays within one slot, and ends at the next boundary or at the end of the range, also when that end wraps to 0 |
| MmuCode.Mmu.AllocInitPte | l5-scheduling-memory/so3/arch/arm32/mmu.c:75-115 | fills the L2 entries of one slot with consecutive frames, in a new table when the slot was empty, and touches nothing else |
| MmuCode.Mmu.AllocSections | l5-scheduling-memory/so3/arch/arm32/mmu.c:130-138 | the section loop is a creation on its range, and ends also when `end` wraps to 0 |
| MmuCode.Mmu.AllocInitSection | l5-scheduling-memory/so3/arch/arm32/mmu.c:121-148 | the choice between sections and pages in one slot is a creation on that slot's part of the range |
| Walking.WalkByPages | l5-scheduling-memory/so3/arch/arm32/mmu.c:549-569 | the processor's walk for an address leads to the frame that the tables map its page to, or nowhere |
| Walking.CreatedBytes | l5-scheduling-memory/so3/arch/arm32/mmu.c:159-190 | after a creation the bytes of the range, rounded to pages of 4096 bytes, lead to consecutive physical addresses from the page of the base, modulo 2^32, and every other byte leads where it did |
| Walking.ReleasedBytes | l5-scheduling-memory/so3/arch/arm32/mmu.c:256-279 | after a release no byte of the rounded range leads anywhere, and every other byte leads where it did |
| MmuCode.Mmu.CreateMapping | l5-scheduling-memory/so3/arch/arm32/mmu.c:159-190 | for any size above 0 the loop ends and is a creation on the range rounded to pages; table slots stay on their own live tables |
| MmuCode.Mmu.FreeL2Mapping | l5-scheduling-memory/so3/arch/arm32/mmu.c:193-223 | empties the entries of the range and frees the table exactly when nothing is left in it |
| MmuCode.Mmu.FreeL1Mapping | l5-scheduling-memory/so3/arch/arm32/mmu.c:226-251 | one slot's part of a release |
| MmuCode.Mmu.FreeSections | l5-scheduling-memory/so3/arch/arm32/mmu.c:233-240 | whole slots are emptied without freeing a table they refer to |
| MmuCode.Mmu.ReleaseMapping | l5-scheduling-memory/so3/arch/arm32/mmu.c:256-279 | for any size above 0 the loop ends and is a release of the rounded range |
| MmuCode.Mmu.NewRootPgtable | l5-scheduling-memory/so3/arch/arm32/mmu.c:364-377 | a new table without entries, at an address that was not in use |
| MmuCode.Mmu.PgtableCopyKernelArea | l5-scheduling-memory/so3/arch/arm32/mmu.c:350-358 | the kernel slots become those of the system table, the others stay |
| MmuCode.Mmu.ResetRootPgtable | l5-scheduling-memory/so3/arch/arm32/mmu.c:390-418 | the user slots are emptied and each of their tables is freed once; the root goes too on request |
| MmuCode.ResetSpace | l5-scheduling-memory/so3/arch/arm32/mmu.c:390-418 | what is freed is exactly what the address space owned, the kernel slots are untouched and nothing is mapped any more |
| MmuCode.Mmu.VirtToPhysPt | l5-scheduling-memory/so3/arch/arm32/mmu.c:549-569 | stops exactly on an empty first-level entry; the frame is that of the page, or in a section that of the section's first page, or 0 for an empty second-level entry; so for a mapped address the result is the true one if and only if the page is a small one or the first of its section |
| MmuCode.SectionMistaken | l5-scheduling-memory/so3/arch/arm32/mmu.c:556-560 | in every section exactly the addresses behind its first page come out wrong |
| MmuCode.MistakenPage | l5-scheduling-memory/so3/arch/arm32/mmu.c:556-560 | tables in which the second page of a section comes out as the first |
| Space.TablesLocal | l5-scheduling-memory/so3/arch/arm32/mmu.c:159-279 | a change to the private part of one address space keeps the ownership of all, and the maps of the others |
| Space.TablesAdd | l5-scheduling-memory/so3/arch/arm32/mmu.c:349-377 | a new address space with tables of its own keeps the ownership of all |
| Space.TablesRemove | l5-scheduling-memory/so3/arch/arm32/mmu.c:390-418 | taking an address space away with its own tables keeps the ownership of the others |
| Space.MappedPrivate | l5-scheduling-memory/so3/arch/arm32/mmu.c:159-190 | a creation by pages in private slots changes only the tables of that address space |
| Window.OpenWindow | l5-scheduling-memory/so3/arch/arm32/mmu.c:493-497 | pointing the window at a frame changes nothing in the parent but its window slot, and nothing in the child |
| Window.CloseWindow | l5-scheduling-memory/so3/arch/arm32/mmu.c:505-507 | releasing the window gives the parent's table and L2 tables back exactly as they were |
| Copying.CopyStep | l5-scheduling-memory/so3/arch/arm32/mmu.c:480-503 | one turn of the copy loop extends the copy by one page in a frame of its own |
| Copying.FinishCopy | l5-scheduling-memory/so3/arch/arm32/mmu.c:449-508 | the finished loop has duplicated the user space |
| ProcessCode.Kernel.FillPage | l5-scheduling-memory/so3/arch/arm32/mmu.c:480-503 | the bytes of the parent's page reach the child's new frame through the window, read through the parent's current table |
| ProcessCode.Kernel.CopyPage | l5-scheduling-memory/so3/arch/arm32/mmu.c:480-503 | one page of the copy |
| ProcessCode.Kernel.DuplicateSlot | l5-scheduling-memory/so3/arch/arm32/mmu.c:459-503 | one slot of the copy, with a table of its own for the child |
| ProcessCode.Kernel.DuplicateUserSpace | l5-scheduling-memory/so3/arch/arm32/mmu.c:449-508 | the child maps exactly the parent's user pages, each to a frame of its own with the same bytes; the parent's tables are as before, window included |
| ProcessCode.Kernel.constructor | l5-scheduling-memory/so3/kernel/process.c:62-64 | a booted kernel without processes is an initial state of the machine |
| ProcessCode.Kernel.AddPageToProc | l5-scheduling-memory/so3/kernel/process.c:280-296 | one more reference, and the frame last in the list |
| ProcessCode.OneFrame | l5-scheduling-memory/so3/kernel/process.c:306-313 | mapping a frame changes the one page to that frame and no other page if and only if the address is page-aligned, or the next page already maps to the next frame |
| ProcessCode.Kernel.AllocatePage | l5-scheduling-memory/so3/kernel/process.c:301-314 | n consecutive pages are mapped to n free frames, which leave the pool, are counted once and end up on the list |
| ProcessCode.Kernel.NewRoot | l5-scheduling-memory/so3/kernel/process.c:333-335 | a new process with the size of its stack and nothing mapped in user space |
| ProcessCode.Kernel.MapBootImage | l5-scheduling-memory/so3/kernel/process.c:347-347 | the boot image is mapped at the start of the user space, and nothing else changes |
| ProcessCode.Kernel.CreateRootProcess | l5-scheduling-memory/so3/kernel/process.c:326-366 | is a root-creation step: a stack of its own frames and the boot image |
| ProcessCode.Kernel.ReleaseProcPages | l5-scheduling-memory/so3/kernel/process.c:378-394 | every frame of the list loses its reference and becomes free |
| ProcessCode.Kernel.NewProcess | l5-scheduling-memory/so3/kernel/process.c:199-254 | a block with the next pid, last in the list, whose table has the kernel slots only |
| ProcessCode.Kernel.DuplicateProcess | l5-scheduling-memory/so3/kernel/process.c:772-802 | what a child inherits from its parent's block |
| ProcessCode.Kernel.Fork | l5-scheduling-memory/so3/kernel/process.c:807-861 | is a fork step and keeps the invariant; the pid returned is the child's |
| ProcessCode.Kernel.EmptyImage | l5-scheduling-memory/so3/kernel/process.c:569-579 | the old image goes with its tables and frames, and the stack size is reset |
| ProcessCode.Kernel.PlaceStackAndCode | l5-scheduling-memory/so3/kernel/process.c:583-598 | stack and code are mapped one after the other to new frames |
| ProcessCode.Kernel.PlaceImage | l5-scheduling-memory/so3/kernel/process.c:581-617 | stack, code, heap and argument page are mapped where the running page count puts them |
| ProcessCode.Kernel.SetupProcImageReplace | l5-scheduling-memory/so3/kernel/process.c:552-624 | is an exec step, and the argument page, if any, is in the frame mapped below the stack top |
| ProcessCode.Kernel.Execve | l5-scheduling-memory/so3/kernel/process.c:679-723 | the arguments are kept exactly when the count, the addresses, the terminator and the strings take at most 4096 bytes; then the new program reads back argv in order, or the program's name if there are no arguments, and envp, and otherwise exec goes on without them |
| ProcessCode.Kernel.Exit | l5-scheduling-memory/so3/kernel/process.c:923-967 | is an exit step; a process without a parent stops the kernel and changes nothing |
| ProcessCode.Kernel.Sbrk | l5-scheduling-memory/so3/kernel/process.c:1094-1149 | moves the break and returns the old one if the new one lies within the size of the heap, and otherwise returns -1 and changes nothing |
| ProcessCode.Kernel.FindProcByPid | l5-scheduling-memory/so3/kernel/process.c:84-98 | the process with the pid, or none if there is none |
| ProcessCode.Kernel.FindProcZombieToClean | l5-scheduling-memory/so3/kernel/process.c:127-141 | the zombie with the lowest pid that has not been waited for, or none if there is none |
| ProcessCode.Kernel.FindProcByParent | l5-scheduling-memory/so3/kernel/process.c:146-159 | finds a child if and only if there is one |
| ProcessCode.Kernel.RemoveProc | l5-scheduling-memory/so3/kernel/process.c:179-194 | the block leaves the list, whose order stays, and is freed |
| ProcessCode.Kernel.CleanUp | l5-scheduling-memory/so3/kernel/process.c:1031-1047 | is a wait step; the status is the exit code's low byte, shifted |
| ProcessCode.Kernel.Waitpid | l5-scheduling-memory/so3/kernel/process.c:985-1081 | which process is waited for, when the answer is 0 or -1, and that the state then stays; otherwise it is a wait step; with -1 a child of the caller is taken if and only if a child of the caller is the oldest zombie not waited for |
| Theorems.DistinctRegions | l5-scheduling-memory/so3/kernel/process.c:583-616 | an image asks for no page twice if and only if code, heap, stack and argument page do not overlap |
| Lifecycle.FramesChange | l5-scheduling-memory/so3/kernel/process.c:280-394 | giving back one process's frames and taking free ones keeps every count equal to the occurrences in all page lists |
| Lifecycle.PageLists | l5-scheduling-memory/so3/kernel/process.c:280-314 | where counts are right, no frame is twice in a list or in two lists |
| Lifecycle.CreateRootKeeps | l5-scheduling-memory/so3/kernel/process.c:326-366 | root creation keeps the invariant |
| Lifecycle.ForkKeeps | l5-scheduling-memory/so3/kernel/process.c:807-861 | fork keeps the invariant |
| Lifecycle.ExecKeeps | l5-scheduling-memory/so3/kernel/process.c:552-624 | exec keeps the invariant |
| Lifecycle.SbrkKeeps | l5-scheduling-memory/so3/kernel/process.c:1094-1149 | sbrk keeps the invariant |
| Lifecycle.ExitKeeps | l5-scheduling-memory/so3/kernel/process.c:923-952 | exit keeps the invariant |
| Lifecycle.WaitKeeps | l5-scheduling-memory/so3/kernel/process.c:1031-1047 | the wait for a zombie keeps the invariant, whether its block stays or goes |
| Lifecycle.RunOk | l5-scheduling-memory/so3/kernel/process.c:199-1081 | every state of every run is well formed: exact reference counts, free frames are those without owner, no shared frame, own live L2 tables, a list ordered by pid, pids below the next one, parents older and present |
| Reading.ChildReadsSame | l5-scheduling-memory/so3/arch/arm32/mmu.c:449-508 | after a fork the child reads at every user address, through its own tables, the byte the parent read there |
| Reading.OthersReadSame | l5-scheduling-memory/so3/kernel/process.c:807-1149 | no call of one process changes what another reads at any user address, its parent included |
| Reading.Undisturbed | l5-scheduling-memory/so3/kernel/process.c:807-1149 | in any run a process reads the same as long as only others make calls |
| Reading.ExecMaps | l5-scheduling-memory/so3/kernel/process.c:570-616 | which pages an image maps, where its heap and its stack start and what its page count is, in numbers |
| Reading.RootMaps | l5-scheduling-memory/so3/kernel/process.c:333-347 | which pages a boot process maps, the boot image to the frames that hold it, and the other fields of its block |
| Reading.RunBlocks | l5-scheduling-memory/so3/kernel/process.c:262-268 | in any run every process is ready or dead with its stack below the argument page; a live one has its stack mapped, and after an exec its heap, with the break inside it |
| Theorems.Isolation | l5-scheduling-memory/so3/arch/arm32/mmu.c:487-491 | no page of one process is backed by a frame of another, except for the boot image in two boot processes |
| Theorems.AncestorAlive | l5-scheduling-memory/so3/kernel/process.c:930-933 | every chain of parents ends at a boot process, which is alive |
| Theorems.Stays | l5-scheduling-memory/so3/kernel/process.c:1042-1047 | over any run without second waits by pid a boot process is never removed, and a zombie kept because of its children stays |
| WaitAgain.AnyRunOk | l5-scheduling-memory/so3/kernel/process.c:1002-1047 | whatever is waited for again, the list stays ordered by pid and every parent stays in it |
| WaitAgain.StaysUntil | l5-scheduling-memory/so3/kernel/process.c:1002-1047 | in runs with second waits a kept zombie stays what it is if and only if no second wait has found it without children; afterwards no process has its pid |
| WaitAgain.BootStays | l5-scheduling-memory/so3/kernel/process.c:930-933 | in runs with second waits a boot process is never removed |
| WaitAgain.RemoveAgain | l5-scheduling-memory/so3/kernel/process.c:1002-1047 | from boot the calls reach a kept zombie whose last child is gone, and a second wait by its pid then removes it |
| Theorems.WaitTwice | l5-scheduling-memory/so3/kernel/process.c:1002-1034 | a zombie's table is its own live table if and only if it has not been waited for |
| Theorems.LifeLeavesNothing | l5-scheduling-memory/so3/kernel/process.c:807-1048 | fork, any number of execs and moves of the break, exit and wait leave the tables, the blocks, the list, the free frames and the counts as they were before, and frames in use unchanged |
| ChildLife.WholeLife | l5-scheduling-memory/so3/kernel/process.c:807-1048 | the same for the code itself: the calls one after the other restore the kernel's state, and the parent gets the child's pid and the low byte of its exit status |
| ChildLife.WaitForGrandchild | l5-scheduling-memory/so3/kernel/process.c:991-999 | from boot the calls reach a waitpid(-1) that takes a process whose parent is not the caller |
| ChildLife.LeaveGrandchild | l5-scheduling-memory/so3/kernel/process.c:1042-1047 | from boot the calls reach a zombie that was waited for and has a block and a child, but neither thread nor table |
| Theorems.InitExists | l5-scheduling-memory/so3/kernel/process.c:62-64 | a kernel can boot with any layout and any pool without frame 0 and the boot image |
| Theorems.ExecShape | l5-scheduling-memory/so3/kernel/process.c:552-624 | after exec the page count is the length of the page list; it is the number of mapped pages if and only if code, heap, stack and arguments are disjoint, which holds for an entry at page 1 when they fit below the stack |
| Theorems.ForkShape | l5-scheduling-memory/so3/kernel/process.c:772-802 | a child of a process for which the three numbers agree has them agree too |
| ArgPage.StoreWord | l5-scheduling-memory/so3/kernel/process.c:423-423 | a little-endian word is stored and the other bytes stay |
| ArgPage.StrCpy | l5-scheduling-memory/so3/kernel/process.c:463-473 | the string and its zero are stored and the other bytes stay |
| ArgPage.PlaceList | l5-scheduling-memory/so3/kernel/process.c:471-513 | the loop over the arguments, and that over the environment, places every string with its address, or stops after one that ends behind the page |
| ArgPage.PreserveArgsAndEnv | l5-scheduling-memory/so3/kernel/process.c:399-516 | succeeds if and only if the arguments are given and everything takes at most 4096 bytes; then argc, argv in order, or 1 and the process name for argc 0, and envp can be read from the page, and memory behind it is untouched; if arguments are missing nothing is written; if they do not fit some string ends behind the page |
| ArgPage.WordOrder | l5-scheduling-memory/so3/kernel/process.c:423-423 | words are little-endian |
| ArgPage.TotalBytes | l5-scheduling-memory/so3/kernel/process.c:423-513 | what the page must hold, in bytes |
| ArgPage.LaidBytes | l5-scheduling-memory/so3/kernel/process.c:423-513 | which byte of the page holds what: the count at 0, address k at 4 + 4k, a zero after the last address, then each string behind the zero of the one before |
| ArgPage.PostSetupImage | l5-scheduling-memory/so3/kernel/process.c:518-547 | the loops relocate each address and no other byte, stop at the terminator, and leave the same layout at the new base |
| ArgPage.ReadBack | l5-scheduling-memory/so3/kernel/process.c:399-547 | from a laid-out page argc, every argument and every environment string read back in order |
| Recency.Inclusion | l7-lru-wsc/usr/src/memreplace.c:45-71 | nested resident sets stay nested over any trace, also across wraps of the clock |
| Recency.FewerFaults | l7-lru-wsc/usr/src/memreplace.c:207-225 | the larger memory never has more faults |
| Recency.RunSize | l7-lru-wsc/usr/src/memreplace.c:25-29 | the number of resident pages never changes |
| Recency.VictimUnique | l7-lru-wsc/usr/src/memreplace.c:45-58 | there is one victim only |
| Recency.VictimIsLeastStamped | l7-lru-wsc/usr/src/memreplace.c:45-58 | the victim has the least timestamp, and the lowest number among those, if and only if some resident page is stamped before the clock's time or the lowest-numbered one has the least timestamp itself |
| Recency.FirstAboveIs | l7-lru-wsc/usr/src/memreplace.c:207-212 | at the start, q is above the other pages in memory, not counting the one it displaces, if and only if it is above all others after its access |
| Recency.RunTracks | l7-lru-wsc/usr/src/memreplace.c:206-226 | while the clock has not wrapped, times fall along the list of pages by recency, and the resident pages are a prefix of it or contain it |
| Recency.RecencyExactly | l7-lru-wsc/usr/src/memreplace.c:206-226 | memory holds exactly the k most recently accessed pages after every trace from q on that the clock can count, if and only if q is numbered above all other pages in memory, not counting the one it displaces |
| Recency.RecencyUpTo | l7-lru-wsc/usr/src/memreplace.c:45-71 | after every trace of at most n accesses, if and only if, besides, n is at most the number of times of the clock |
| Replacement.Unload | l7-lru-wsc/usr/src/memreplace.c:25-29 | swapped and not valid; reference bit and number stay |
| Replacement.Load | l7-lru-wsc/usr/src/memreplace.c:223-226 | valid, referenced and not swapped; the number stays |
| Replacement.LruRefines | l7-lru-wsc/usr/src/memreplace.c:207-226 | the bit operations of an LRU access are the access by timestamps |
| Replacement.LruEntries | l7-lru-wsc/usr/src/memreplace.c:33-38 | an LRU access keeps valid and swapped apart and the numbers in place |
| Replacement.EntryBits | l7-lru-wsc/usr/src/memreplace.c:14-17 | which bits of an entry say what |
| Replacement.LruEntryIs | l7-lru-wsc/usr/src/memreplace.c:206-226 | an LRU access marks the page accessed and no other, and exactly the page it throws out comes to be swapped |
| Replacement.LruNothingLost | l7-lru-wsc/usr/src/memreplace.c:25-29 | over any run a page is in memory or swapped, not both, if and only if it was at the start or has been accessed |
| Replacement.LruRunOk | l7-lru-wsc/usr/src/memreplace.c:198-226 | a run under LRU is the run by timestamps modulo 256, with well-formed entries and as many valid pages as before |
| Replacement.LruInclusion | l7-lru-wsc/usr/src/memreplace.c:45-71 | of two tables with the same times the smaller one never holds a page the larger has not, and never has fewer faults, over any trace |
| Replacement.WscVictim | l7-lru-wsc/usr/src/memreplace.c:73-97 | there is a victim if and only if some page is valid, and it is a valid one |
| Replacement.WscEntries | l7-lru-wsc/usr/src/memreplace.c:73-97 | a WSClock access keeps entries well formed and referenced pages valid |
| Replacement.WscEntryIs | l7-lru-wsc/usr/src/memreplace.c:73-105 | bit by bit: a fault unmarks exactly the pages in memory up to the first that is unmarked and more than 2 old, the page thrown out comes to be swapped, and pages still marked get the present time; a hit changes no other page |
| Replacement.WscNothingLost | l7-lru-wsc/usr/src/memreplace.c:25-29 | over any run a page is in memory or swapped, not both, if and only if it was at the start or has been accessed |
| Replacement.WscResident | l7-lru-wsc/usr/src/memreplace.c:214-226 | an access to a page outside memory takes the victim's place and no other |
| Replacement.SecondChance | l7-lru-wsc/usr/src/memreplace.c:73-97 | exactly which page an access throws out, by the program's own clock; a referenced one only if it is the lowest valid page and no page is aged by that clock, and then no other mark survives |
| Replacement.AgesBeforeWrap | l7-lru-wsc/usr/src/memreplace.c:99-105 | through the first 255 accesses the program's times are those of a clock that does not wrap |
| Replacement.WrapHidesAge | l7-lru-wsc/usr/src/memreplace.c:84-84 | after 256 accesses to page 0 an access to page 5 throws out page 0, which is referenced, while pages 1 and 2 were never used |
| Replacement.BootAges | l7-lru-wsc/usr/src/memreplace.c:73-105 | from the program's start, each fault of every trace of at most n accesses throws out the first valid, unreferenced page last found marked more than DELTA accesses ago, or else the lowest valid page, if and only if n is at most 256 |
| Replacement.WscRunOk | l7-lru-wsc/usr/src/memreplace.c:198-226 | a run under WSClock keeps entries well formed, referenced pages valid, and the number of valid pages |
| Replacement.BootResident | l7-lru-wsc/usr/src/memreplace.c:113-116 | the program starts with pages 0, 1 and 2 in memory and all times 0 |
| Replacement.BootRecency | l7-lru-wsc/usr/src/memreplace.c:107-117 | from its start the program holds exactly the three most recent pages after every trace of at most n accesses, if and only if the first access is not to page 0 or 1 and n is at most 256 |
| Replacement.Pager.InitPageTable | l7-lru-wsc/usr/src/memreplace.c:107-117 | each entry holds its number, pages 0 to 2 are valid, page 3 is swapped |
| Replacement.Pager.ReplaceLRU | l7-lru-wsc/usr/src/memreplace.c:45-67 | unloads the victim by timestamp and nothing else, and nothing if no page is valid |
| Replacement.Pager.IncCompteur | l7-lru-wsc/usr/src/memreplace.c:69-71 | records the time and advances the clock modulo 256 |
| Replacement.Pager.ReplaceWSC | l7-lru-wsc/usr/src/memreplace.c:73-97 | the scan clears the marks before the first aged page, or all, and unloads that page, or the first valid one |
| Replacement.Pager.UpdateTDU | l7-lru-wsc/usr/src/memreplace.c:99-105 | exactly the marked pages get the present time |
| Replacement.Pager.Touch | l7-lru-wsc/usr/src/memreplace.c:206-226 | one round of the main loop is one access |
| Replacement.AcceptedStep | l7-lru-wsc/usr/src/memreplace.c:206-234 | a number is taken as an access if and only if it names a page |
| Replacement.Pager.Serve | l7-lru-wsc/usr/src/memreplace.c:198-236 | the main loop is the run over the inputs that name a page |
| TicTacToe.RealLineIs | l2-syscalls-fork/usr/src/tictactoe_gm.c:156-158 | the lines of the game, by rows, columns and diagonals of the board, are eight lines of cells |
| TicTacToe.JudgeCells | l2-syscalls-fork/usr/src/tictactoe_gm.c:160-199 | on which boards the program sees a win, cell by cell; a draw is a board without one and without a free cell |
| TicTacToe.JudgeIsReal | l2-syscalls-fork/usr/src/tictactoe_gm.c:153-200 | on any board the program's judgement is the real one if and only if a line it knows rightly stands, or what it overlooks and what it invents occur together or not at all |
| TicTacToe.Misjudged | l2-syscalls-fork/usr/src/tictactoe_gm.c:180-185 | a game that completes 0-4-8 is not over, and one that completes 0-4-5 is won |
| TicTacToe.LowestEmpty | l2-syscalls-fork/usr/src/tictactoe_gm.c:85-86 | the lowest empty cell |
| TicTacToe.Game.MinMax | l2-syscalls-fork/usr/src/tictactoe_gm.c:32-71 | for every grid, side and depth the grid is restored and the result is 0 |
| TicTacToe.Game.ComputersTurn | l2-syscalls-fork/usr/src/tictactoe_gm.c:78-106 | the grid is restored and the result is the lowest empty cell plus 1, or 0 |
| TicTacToe.Game.CheckWin | l2-syscalls-fork/usr/src/tictactoe_gm.c:153-200 | a win, a draw or neither, by the lines the program looks at and by whether all cells are taken |
| TicTacToe.Game.GetPlayerMove | l2-syscalls-fork/usr/src/tictactoe_gm.c:248-267 | takes the first acceptable move, having asked once and rejected all before it |
| TicTacToe.Game.PlayMove | l2-syscalls-fork/usr/src/tictactoe_gm.c:313-316 | the first move received that names an empty cell is written there, and no other cell changes |
| TicTacToe.Game.CheckGameState | l2-syscalls-fork/usr/src/tictactoe_gm.c:272-296 | what is announced, and that the game is over exactly then |
| TicTacToe.Game.PlayComputersTurn | l2-syscalls-fork/usr/src/tictactoe_gm.c:324-326 | the computer's mark goes to the lowest empty cell |
| Protocol.BoardStep | l2-syscalls-fork/usr/src/tictactoe_gm.c:313-326 | a move to an empty cell adds one mark, and the grid stays what the moves so far make it |
| Protocol.OwnLine | l2-syscalls-fork/usr/src/tictactoe_gm.c:332-333 | a move completes lines of the mover only |
| Protocol.PlayerKeeps | l2-syscalls-fork/usr/src/tictactoe_player.c:121-166 | every step of the player keeps the invariant |
| Protocol.ManagerKeeps | l2-syscalls-fork/usr/src/tictactoe_gm.c:301-342 | every step of the manager keeps the invariant |
| Protocol.RunOk | l2-syscalls-fork/usr/src/tictactoe_gm.c:301-342 | every state of every interleaving satisfies the invariant |
| Protocol.OneMoveOutstanding | l2-syscalls-fork/usr/src/tictactoe_player.c:121-166 | while the manager waits exactly one request or answer is under way and otherwise none; the player never takes GAME_END |
| Protocol.AcceptableIs | l2-syscalls-fork/usr/src/tictactoe_gm.c:258-263 | a move is accepted if and only if it names a cell that no earlier move has taken |
| Protocol.Conversation | l2-syscalls-fork/usr/src/tictactoe_gm.c:248-342 | what is said in every run: GAME_START; in each turn of the player YOU_CAN_PLAY once and MOVE_REJECTED for every move that names no free cell until one does; the result and GAME_END; both pipes deliver all of it in order |
| Protocol.NoDeadlock | l2-syscalls-fork/usr/src/tictactoe_gm.c:248-342 | a state without a next step is one where both have finished, and conversely |
| Protocol.FairGame | l2-syscalls-fork/usr/src/tictactoe_gm.c:272-336 | at most nine moves, each to its own empty cell, the computer never faces a full grid, and the result announced names the side with a line, or neither on a full grid |
| Protocol.RightResult | l2-syscalls-fork/usr/src/tictactoe_gm.c:272-336 | a finished game is a real one, judged at every move as the rules say, if and only if nothing overlooked stood before the last move and that move completed a known line, or an overlooked one together with an invented one, or neither; the result announced then names the side that really won |
| Protocol.WonWithoutLine | l2-syscalls-fork/usr/src/tictactoe_gm.c:180-182 | a run in which the player is told to have won although nobody has three in a row |
| Protocol.WinOverlooked | l2-syscalls-fork/usr/src/tictactoe_gm.c:180-182 | a run in which the player has three in a row and the computer is to move |
| Protocol.GameEnds | l2-syscalls-fork/usr/src/tictactoe_gm.c:308-339 | a run has at most 99 steps and 4 for each rejected move |
| Letters.LetterOf | l3-ipc/usr/src/threads.c:35-36 | which letter a character is, in either case, or none |
| Letters.LetterCodes | l3-ipc/usr/src/threads.c:34-36 | which character codes count as which letter |
| Letters.HistogramCounts | l3-ipc/usr/src/threads.c:33-38 | the histogram is the number of positions of the letter |
| Letters.HistogramConcat | l3-ipc/usr/src/threads.c:189-193 | counts of two parts add up to those of the whole |
| Letters.ChunksTile | l3-ipc/usr/src/threads.c:153-164 | the parts start at 0, follow each other without gap or overlap and end at the end of the text |
| Letters.Split | l3-ipc/usr/src/threads.c:153-164 | the parameters of the threads are those parts, the last with the leftovers |
| Letters.CountLetters | l3-ipc/usr/src/threads.c:30-40 | adds the histogram of the part to the thread's own counters |
| Letters.WorkerKeeps | l3-ipc/usr/src/threads.c:33-38 | after each step a worker's counters are those of what it has read |
| Letters.MainKeeps | l3-ipc/usr/src/threads.c:174-193 | creating, joining and gathering keep the invariant |
| Letters.RunOk | l3-ipc/usr/src/threads.c:174-193 | every state of every interleaving satisfies the invariant |
| Letters.CountsAreExact | l3-ipc/usr/src/threads.c:174-193 | whatever the interleaving, a finished run has counted every position of every letter of the whole text once |
| Letters.RunsEnd | l3-ipc/usr/src/threads.c:174-193 | a run has at most 2 steps for each character and 30 for each thread |
| Letters.NoDeadlock | l3-ipc/usr/src/threads.c:174-193 | a state without a next step is one where main has finished, and conversely |

## Left out

- Memory attributes, domains, caches, TLB invalidation, `mmu_configure`, `clear_l1pte`: hardware effects that the translation does not depend on.
- MmuCode.Mmu.CreateMapping: asks for a size above 0, a range inside the address space, and no section in a slot that is covered in part, because the code treats such an entry as a pointer to an L2 table.
- The NULL table, which stands for the system table in the page-table calls: the caller names the table.
- MmuCode.Mmu.ReleaseMapping: asks that each slot covered in part has an L2 table, for the same reason.
- The kernel heap is a map from addresses to tables and blocks; C's allocator, alignment and the bytes of a table are not modelled, and a table is one value that is replaced when an entry changes.
- The pid counter is unbounded, as the code's own comment assumes that 2^32 processes are never made.
- ProcessCode.Kernel.Fork: asks for as many free frames as the parent has user pages, since the kernel stops otherwise, and for the main thread, since the code refuses any other one.
- ProcessCode.Kernel.AllocatePage: asks for a page-aligned address; `ProcessCode.OneFrame` says what an unaligned one maps besides.
- ProcessCode.Kernel.MapBootImage: supposes that the boot image is page-aligned and smaller than a megabyte, so that it is mapped by pages, as the link script that places it is not part of this model.
- ProcessCode.Kernel.PlaceStackAndCode: asks for a page-aligned entry point, for the same reason.
- ProcessCode.Kernel.PlaceImage: asks for a page-aligned entry point, for the same reason.
- ProcessCode.Kernel.SetupProcImageReplace: asks for a page-aligned entry point, for the same reason.
- ProcessCode.Kernel.Execve: begins when the file has been read, since a missing file makes exec return -1 before anything changes; asks for a page-aligned entry point and an image that lies in the user space; a string that runs over the page is written into a larger buffer, because the code notices only afterwards.
- ProcessCode.Kernel.Waitpid: asks, for an explicit pid, that the process has not been waited for before, because a second wait reads a table that has been freed, and models thread_join as returning with the target dead.  `WNOHANG` on a process that is alive is covered.  `WaitAgain` has the second wait as a step that leaves the tables open and assumes that thread_join returns at once.
- Theorems.Stays: is about runs without second waits by pid; `WaitAgain.StaysUntil` is about runs with them.
- Ptrace, stopped processes and PROC_STATE_WAITING: these states are set in code that is not part of this model.
- ELF parsing and `load_process`: the contents of code pages after exec are arbitrary.
- File descriptors, signals, thread contexts, kernel stacks, scheduling, `do_renice`, serial port: they do not touch frames, tables or the process list.
- Replacement.Pager.Serve: user input is a list of numbers; the display and the exit command are not modelled.
- Recency.RecencyExactly: is about memories that leave a page out and clocks that count past the pages in memory.
- `parse_line` and the prompts of the player: the player may send any cell number from 0 to 8.
- The values of EMPTY_ID, PLAYER_ID and AI_ID: empty is 0, the two marks are any two different other numbers; the command codes are distinct constants.
- Pipes are unbounded FIFO queues of whole commands, and reading and writing them never fails.
- TicTacToe.Game.GetPlayerMove: reads from a list of moves already received and returns None where the program would block.
- Loading the text file, argument checks and printing in the letter count; the text is shorter than 2^31 characters, so that counters and the loop index do not overflow.
- `memsim.c`, the socket programs, the shell and its tools, drivers and system-call dispatch.
