# NachOS: a verified model

A Dafny model of the four cores of NachOS, with the properties they are there for proved over
every input, every run and every interleaving. `dafny verify dfyconfig.toml` checks the project.

**Demand-paged virtual memory.** `PagedMemory` is the paging system as a state machine: page
tables with valid, use and dirty bits, the core map, the frame bitmap, main memory, executables
and swap files. `PagingInvariant` says what holds in every reachable state, `PagingRefinement`
that every process sees one private flat byte array, `AddressSpaces` how large that array is and
what it holds at first, and `Replacement` which pages are in memory. `CoreMap` is the linked
core map and `Machine` the machine, both updated in place and proved to compute the functions of
`PagedMemory` and `Cpu`. `Cpu` has the instructions by classes, and `InstructionSet` what each
does, on paged as on flat memory; `Mnemonics`, `Results` and `LoadsAndStores` say it of the
processor's instructions by name, and `BranchRun` runs a program. `Restart` shows that
restarting after a page fault cannot be noticed by an instruction that leaves the target of a
pending load alone, `Visibility` and `Computations` that for the others it can, instruction by
instruction, and `Preemption` that interrupts are noticed in the same way. `Execution` shows
that whole interleaved programs run as if alone otherwise. `Progress` shows that two frames are
enough to make progress. `StaleTail` is the run in which clock replacement loses a page.
`Basics`, `Bytes` and `BitMapSpec` are shared.

**The file system.** `DiskLayout` and `FileSystemSpec` say what the bytes of the disk mean and
what each operation does to them; the free map and the directory are files on that same disk.
`FileSystemInvariant` proves that sector ownership, the free map and the directory agree,
`FileSystemCapacity` how many sectors are left, `FileSystemRefinement` that the disk behaves as
a map from names to contents, `OpenHandles` when files may be written that were opened before
the directory changed. `BitMap`, `OpenFile` and `FileSystem` are the objects, with their loops
over words, sectors and entries.

**Threads and synchronisation.** `SortedList` and `LinkedList` are the kernel's lists. `Threads`
and `Synchronization` are the scheduler, semaphores, locks and Mesa-style conditions as a step
system over any number of threads; each step is what runs with interrupts off. `Scheduling` says
whom the scheduler chooses, `Places` where every thread is after a step, `Effects` summarises a
step for clients. `Mailbox`, `DiskProtocol` (`SynchDisk`) and `PipeProtocol` are built on that
kernel and on `Monitors`, what they have in common, with preemption between any two steps;
`MailboxCalls`, `DiskCalls` and `PipeCalls` are whole calls, from the first statement to the
return or the sleep. `Join` is one `Join` against a joinable child's `Finish`. `Pipe` is the
ring buffer behind user pipes.

**Simulated hardware.** `Multiply` is the bit-serial multiplication, `Interrupts` and
`InterruptDevice` the pending-interrupt list and the clock, `HandlerEffects` what handlers ask
for and what ticks add up to, `Ties` the order of interrupts of equal time, `DiskTiming` the
disk's latency and track buffer.

Five findings about the code are stated as theorems:

- When clock replacement picks the last of several pages, `tail` stays on the removed node, and
  the next page added is lost from the list though counted. `CoreMap.CoreMap.EvictCorePage` says
  exactly when, `StaleTail.ClockPicksLast` gives a run that gets there, and the methods of
  `Machine` say what the machine is then. The whole-run paging theorems are about a core map
  whose tail is kept, which is what FIFO does.
- An instruction that uses the target of a pending delayed load can end differently when it is
  restarted after a fault, and when an interrupt comes before it: the kernel delivers the load
  early in both cases. The lemmas of `Visibility` and `Computations` give the exact condition for
  every kind of instruction, `Preemption.InterruptTransparentIff` shows that it is the same for
  interrupts, and `Preemption.InterruptIsVisible` is an execution in which the result is wrong.
- With one frame an instruction may fault forever; `Progress.CompletesIff` says exactly when.
- A file that was opened, and then removed, can be written into sectors that belong to another
  file by then: always when one is created next and neither is empty
  (`OpenHandles.StaleHandleIsHarmful`). `OpenHandles.WritesAreSafeIff` is the exact condition
  for writes through an open file to change that very file and no other.
- An interrupt that is looked at before it is due goes behind others of the same time. They keep
  their order exactly when the number of looks is a multiple of how many they are
  (`Ties.TiesKeepOrderIff`; `Interrupts.TiesCanSwap` is a run in which they do not).

Modelling choices: integers are unbounded and 32-bit wrap-around is written out where the code
relies on it; `OR` combines its first operand with itself and `SRL` and `SRLV` shift a signed
integer, as the code has it and not the processor's manual; what lies outside (file lengths, handlers, instruction decoding, priorities,
scheduling of other threads, the time of requests) is a parameter that theorems quantify over;
the page-fault handler is one step; `FileHeader::Allocate` does not compare with `NumDirect` and
`ReadAt`/`WriteAt` do not reject negative positions, so sizes up to `MaxFileSize` and
non-negative positions are required.

## Model

| member | source | states |
|---|---|---|
| `Bytes.LoadAfterStore` | code/machine/translate.cc:91-175 | a load of the same size returns what a store left: the value truncated to 1, 2 or 4 bytes and extended as the host types do |
| `PagedMemory.OffsetFits` | code/machine/translate.cc:193-261 | an access that passes the alignment test never crosses a page |
| `PagedMemory.PassedOver` | code/userprog/addrspace.cc:774-800 | the clock hand stops at the first page not in use: all before it are in use |
| `PagingInvariant.FrameHasOneOwner` | code/userprog/addrspace.cc:166-168 | two resident pages in one frame are the same page of the same process |
| `PagingInvariant.PageOutBacks` | code/userprog/addrspace.cc:570-591 | after a page-out the copy outside memory is the frame if the page was dirty and what it was if not; no other page is affected |
| `PagingInvariant.PageOutKeeps` | code/userprog/exception.cc:801-807 | taking any page out of memory keeps the invariant and no process sees a difference |
| `PagingInvariant.EvictOneKeeps` | code/userprog/addrspace.cc:751-805 | eviction under either policy, use bits included, keeps the invariant and every process's view |
| `PagingInvariant.FreeFrameExists` | code/userprog/addrspace.cc:477-493 | a core map with room implies a free frame, so AllocPage cannot return -1 |
| `PagingInvariant.LoadPageKeeps` | code/userprog/addrspace.cc:151-217 | bringing a page into a free frame keeps the invariant and every process's view |
| `PagingInvariant.HandleFaultKeeps` | code/userprog/exception.cc:796-820 | the fault handler always finds a frame and room in the core map, keeps the invariant, and changes nothing a process can see |
| `PagingRefinement.TrapIff` | code/machine/translate.cc:193-261 | translation fails with an address error exactly for misaligned or out-of-range addresses, and otherwise page-faults exactly when the page is not resident |
| `PagingRefinement.LoadHit` | code/machine/translate.cc:91-127 | a load that translates returns the bytes of the process's flat memory |
| `PagingRefinement.StoreRefines` | code/machine/translate.cc:142-175 | a store into a frame changes exactly those bytes of that process's flat memory and of no other |
| `PagingRefinement.StepRefines` | code/machine/translate.cc:91-261 | every Exec, ReadMem and WriteMem keeps the invariant, does to the flat memories what it should, and returns the flat result, a page fault, or an address error exactly where the access is not permitted |
| `PagingRefinement.RunRefines` | code/userprog/exception.cc:796-820 | every state of every run, with any number of processes and frames, satisfies the invariant and refines the flat memories |
| `PagingRefinement.FlatIsLastWrite` | code/machine/translate.cc:142-175 | the flat memory holds at each address the byte last stored there, or the executable's code or data byte, or zero |
| `PagingRefinement.LoadsReturnLastStored` | code/machine/translate.cc:91-127 | over every run a successful load returns the bytes last stored at its addresses by the same process, or the executable's bytes, or zero |
| `PagingRefinement.FramesAreOwnedOnce` | code/userprog/addrspace.cc:726-771 | over every run core-map nodes, valid entries and used frames match one to one, and the handler never panics |
| `AddressSpaces.ImageSize` | code/userprog/addrspace.cc:111-118 | an address space is the least number of whole pages that holds code, initialised and uninitialised data, 1024 bytes of stack and 512 of arguments |
| `AddressSpaces.ImageContents` | code/userprog/addrspace.cc:176-202 | at first it holds the code bytes of the file, elsewhere its initialised data, and zeros |
| `AddressSpaces.RejectedIff` | code/machine/translate.cc:193-261 | over every run an access is rejected if and only if it is misaligned or ends beyond the pages that code, data, stack and arguments need |
| `Replacement.FifoKeepsNewest` | code/userprog/addrspace.cc:726-771 | over every run with FIFO, memory holds exactly the pages brought in last, as many as there are frames, in that order, and a permitted access faults exactly if its page is not one of them |
| `Replacement.ClockFaultQueues` | code/userprog/addrspace.cc:767-805 | a fault evicts nothing while a frame is free; with clock it takes the first page not in use, or the oldest if all are |
| `Replacement.FaultTables` | code/userprog/exception.cc:796-820 | with FIFO the missing page gets the frame of the victim, or the first free one; only the valid and dirty bits of the victim change besides |
| `Replacement.AccessTouches` | code/machine/translate.cc:193-261 | an access in memory sets the use bit of its page, a write its dirty bit, and no other entry changes |
| `CoreMap.SweptIsExact` | code/userprog/addrspace.cc:781-794 | the clock sweep clears the use bits of the pages it passes over and changes no other entry |
| `CoreMap.ClockEvictsFirstUnused` | code/userprog/addrspace.cc:767-805 | with two or more pages the victim is the first not in use, or the head if all are; exactly the use bits passed over are cleared |
| `StaleTail.ClockPicksLast` | code/userprog/addrspace.cc:751-805 | a run of the paging system from boot, of one program reading two pages, after which the clock policy picks the last node of a full core map |
| `StaleTail.LosePage` | code/userprog/addrspace.cc:726-805 | what then happens to the core map: the page added next is counted and becomes the tail, but is not in the list |
| `CoreMap.CoreMap.AddCorePage` | code/userprog/addrspace.cc:726-745 | appends when tail is the last node; with a stale tail the new node is lost from the list though counted; a full map refuses |
| `CoreMap.CoreMap.EvictCorePage` | code/userprog/addrspace.cc:751-805 | removes exactly the victim and keeps the others in order; tail is right afterwards if and only if the policy is FIFO, one node was left, or the victim was not the last |
| `CoreMap.CoreMap.SweepUntilUnused` | code/userprog/addrspace.cc:781-800 | the walking loop stops just before the first node not in use and clears the use bits on its way |
| `Machine.Machine.LoadFromExecutable` | code/userprog/addrspace.cc:175-209 | the frame becomes the page image: code bytes, else data bytes, else zero |
| `Machine.Machine.PageIn` | code/userprog/addrspace.cc:593-603 | the frame becomes the page of the swap file, nothing else in memory changes |
| `Machine.Machine.AllocVirtualPage` | code/userprog/addrspace.cc:151-217 | the machine after it is LoadPage of the machine before; with a stale tail the same without the new core-map node |
| `Machine.Machine.EvictPage` | code/userprog/exception.cc:801-807 | under either policy the machine after it is EvictOne of the machine before; the tail is right exactly if clock did not pick the last of several |
| `Machine.Machine.HandlePageFault` | code/userprog/exception.cc:796-820 | room is always found; the machine is HandleFault of the machine before, or, exactly when clock picks the last of several, that with the page missing from the core map |
| `Machine.Machine.Translate` | code/machine/translate.cc:193-261 | the trap, the physical address within memory, and the use and dirty bits set |
| `Machine.Machine.ReadMem` | code/machine/translate.cc:91-127 | result and new machine are those of the paged step, save a page lost by clock; a failure runs the handler and delivers the pending load |
| `Machine.Machine.WriteMem` | code/machine/translate.cc:142-175 | result and new machine are those of the paged step, save a page lost by clock; a failure runs the handler and delivers the pending load |
| `Machine.Machine.DelayedLoad` | code/machine/mipssim.cc:575-582 | the register array after delivering the pending load and recording the next |
| `Machine.Machine.RaiseException` | code/machine/machine.cc:101-112 | fault address recorded, pending load delivered, page brought in for a page fault |
| `Machine.Machine.OneInstruction` | code/machine/mipssim.cc:93-565 | registers and outcome are those of the function OneInstruction, and so is the machine unless its fault lost a page to clock |
| `Cpu.DelayedLoad` | code/machine/mipssim.cc:575-582 | r0 is zero and the load target is a general register afterwards |
| `Cpu.OneInstruction` | code/machine/mipssim.cc:93-565 | r0 is zero and the load target is a general register at every instruction boundary, faults included |
| `InstructionSet.PagedInstructionMeans` | code/machine/mipssim.cc:93-565 | on paged memory an instruction either page-faults, changing nothing its process can see but delivering the pending load, or does to memory, registers, PC chain and pending load what the word at its PC means, class by class |
| `InstructionSet.FlatMeans` | code/machine/mipssim.cc:93-565 | the same for the flat processor |
| `Mnemonics.BranchEqualGoes` | code/machine/mipssim.cc:161-193 | BEQ and BNE: the next PC is the old NextPC plus the offset exactly if the registers are equal, or differ, and otherwise plus 4 |
| `Mnemonics.BranchSignGoes` | code/machine/mipssim.cc:166-188 | sign branches by the sign of the register, read after linking |
| `Mnemonics.JumpGoes` | code/machine/mipssim.cc:219-223 | J and JAL: the 28 low bits from the instruction, the high ones kept; JAL links |
| `Mnemonics.JumpRegisterGoes` | code/machine/mipssim.cc:225-229 | JR and JALR: the register, read after linking |
| `Mnemonics.MulDivIs` | code/machine/mipssim.cc:195-364 | Hi and Lo hold the halves of the exact product, or remainder and quotient rounded to zero, signed and unsigned; zeros for division by zero |
| `Mnemonics.MoveIs` | code/machine/mipssim.cc:345-359 | moves from and to Hi and Lo |
| `Results.ComputationIs` | code/machine/mipssim.cc:125-545 | each computation leaves its result, given bit by bit or modulo 2^32, in its register, or traps exactly when it overflows and is one that checks |
| `Results.BitwiseIs` | code/machine/mipssim.cc:153-159 | each bit of a bitwise result is the gate of the two bits |
| `LoadsAndStores.LoadIs` | code/machine/mipssim.cc:231-343 | every load leaves the little-endian bytes at its address, extended as its name says, pending for its register, or traps exactly when misaligned or out of range |
| `LoadsAndStores.StoreIs` | code/machine/mipssim.cc:383-532 | every store changes exactly its bytes, least significant first, or traps |
| `BranchRun.BranchesGo` | code/machine/mipssim.cc:161-193 | a program executed from boot on paged memory: a fault, a taken branch with its delay slot, and one not taken |
| `Progress.FaultIsRecorded` | code/machine/machine.cc:101-112 | a page fault records the address whose page was missing, that of the instruction or of its data, and that page is brought in |
| `Restart.InstructionRefines` | code/machine/mipssim.cc:93-105 | an attempt either page-faults, changing nothing a process can see and delivering only the pending load, or does to paged memory what the flat processor does |
| `Restart.FlatRestart` | code/machine/mipssim.cc:555-582 | starting over after a fault gives the same registers, PC chain and memory, if the instruction does not touch the pending load target |
| `Restart.RestartIsTransparent` | code/machine/mipssim.cc:93-105 | however often an instruction faults and whatever other processes do in between, it ends like one that never faulted |
| `Visibility.IndependentIsTransparent` | code/machine/mipssim.cc:93-105 | an instruction that neither reads nor writes the pending load target can be restarted unnoticed in every state |
| `Visibility.AluTransparentIff` | code/machine/mipssim.cc:125-545 | any one computation is transparent to restarts if and only if it overflows alike and leaves the same with the old and the delivered value of the pending target, whatever the values |
| `Computations.ComputationTransparentIff` | code/machine/mipssim.cc:125-545 | for each of ADD, ADDU, SUB, SUBU, the comparisons, logical operations and shifts, immediate forms included, on given registers: transparent if and only if none of them is the pending target or it is one of the listed degenerate forms |
| `Computations.BitwiseFacts` | code/machine/mipssim.cc:153-159 | the identities of the 32-bit operations that decide what can be noticed |
| `Visibility.RaiseIsTransparent` | code/machine/mipssim.cc:534-549 | system calls and illegal instructions are transparent whatever load is pending, as they use no register and deliver it themselves |
| `Visibility.MoveTransparentIff` | code/machine/mipssim.cc:345-359 | moves from and to Hi and Lo are transparent if and only if their register is not the pending target |
| `Visibility.MulDivTransparentIff` | code/machine/mipssim.cc:195-364 | MULT, MULTU, DIV and DIVU are transparent if and only if neither operand is the pending target or one of them is r0 |
| `Visibility.BranchEqualTransparentIff` | code/machine/mipssim.cc:161-193 | BEQ and BNE are transparent if and only if neither operand is the pending target, or the two are the same register, or the branch goes to the next instruction |
| `Visibility.BranchSignTransparentIff` | code/machine/mipssim.cc:166-188 | sign branches are transparent if and only if they do not link over the pending target and do not test it, or only branch to the next instruction |
| `Visibility.JumpTransparentIff` | code/machine/mipssim.cc:219-229 | J, JAL, JR and JALR are transparent if and only if they are independent of the pending target |
| `Visibility.LoadTransparentIff` | code/machine/mipssim.cc:231-343 | every load, LWL and LWR included, is transparent if and only if its base register is not the pending target |
| `Visibility.StoreTransparentIff` | code/machine/mipssim.cc:383-532 | every store is transparent if and only if neither base nor value is the pending target, or it traps in every address space: off r0, misaligned or negative |
| `Execution.ProcessesRunAlone` | code/machine/mipssim.cc:30-45 | over every interleaving of attempts, faults, restarts and interrupts of any number of processes, each has the memory and registers of one that ran its instructions alone on flat memory, and its instructions end as they do there, if those that meet a fault or an interrupt are independent of pending loads |
| `Preemption.InterruptTransparentIff` | code/machine/interrupt.cc:324-327 | an instruction can notice an interrupt before it, which delivers the pending load, if and only if it can notice a restart, so the same exact conditions hold |
| `Preemption.InterruptIsVisible` | code/machine/interrupt.cc:322-336 | without independence it is false: an execution from boot in which a load is followed by an interrupt and a sum of the loaded register, which is 10 where the private processor has 0 |
| `Progress.NewestSurvives` | code/userprog/addrspace.cc:767-771 | with FIFO and two frames the page brought in last survives the next eviction |
| `Progress.TwoFaultsSuffice` | code/userprog/exception.cc:796-820 | with FIFO and two frames an instruction completes after at most two page faults if the pages it needs before and after the pending load is delivered are at most two |
| `Progress.ThreeFaultsSuffice` | code/userprog/exception.cc:796-820 | with FIFO and two frames every instruction, whatever load is pending, completes after at most three page faults |
| `Progress.CompletesIff` | code/userprog/addrspace.cc:751-771 | whatever load is pending, an instruction ends, completed or trapped, if and only if there are two frames, or once the load is delivered it needs no page but that of its code, or before it needs no other and that page is in memory |
| `BitMapSpec.FirstClearIff` | code/userprog/bitmap.cc:94-119 | Find succeeds if and only if NumClear is positive |
| `BitMapSpec.NumClearOfUpdate` | code/userprog/bitmap.cc:94-119 | marking a clear bit lowers NumClear by one |
| `BitMapSpec.FindManyIsExact` | code/filesys/filehdr.cc:41-52 | n Finds guaranteed by NumClear return distinct clear bits and mark exactly those |
| `BitMapSpec.FindManyIsFirstFit` | code/filesys/filehdr.cc:41-52 | they are the first clear bits, in increasing order |
| `BitMap.BitMap.Mark` | code/userprog/bitmap.cc:46-51 | sets that bit of the abstract bit sequence and no other |
| `BitMap.BitMap.Clear` | code/userprog/bitmap.cc:60-65 | clears that bit and no other |
| `BitMap.BitMap.Test` | code/userprog/bitmap.cc:74-83 | the bit |
| `BitMap.BitMap.Find` | code/userprog/bitmap.cc:94-103 | the first clear bit, now marked, or -1 if there is none |
| `BitMap.BitMap.CountClear` | code/userprog/bitmap.cc:111-119 | the number of clear bits |
| `DiskLayout.HeaderRoundTrip` | code/filesys/filehdr.cc:77-94 | a header written to its sector is read back |
| `DiskLayout.MapRoundTrip` | code/userprog/bitmap.cc:148-165 | a bitmap written to its file is read back |
| `DiskLayout.TableRoundTrip` | code/filesys/directory.cc:63-80 | a directory table written to its file is read back |
| `FileSystemSpec.SameStringIff` | code/filesys/directory.cc:90-97 | comparing a stored name finds exactly the names with the same first nine characters |
| `FileSystemSpec.KeyIff` | code/filesys/directory.cc:90-138 | two names are one to the directory if and only if their first nine characters are the same |
| `FileSystemSpec.FindIndex` | code/filesys/directory.cc:90-97 | the first matching entry in use, or -1 if none matches |
| `FileSystemInvariant.FormattedIsValid` | code/filesys/filesys.cc:80-143 | a formatted disk satisfies the file-system invariant |
| `FileSystemInvariant.SectorsAreOwn` | code/filesys/filesys.cc:80-143 | no file shares a sector with the map or directory file, and its sectors are marked |
| `FileSystemInvariant.CreateKeeps` | code/filesys/filesys.cc:174-215 | Create, failing or not, keeps: marked sectors are exactly the header and data sectors of exactly one file, none shared, names distinct |
| `FileSystemInvariant.RemoveKeeps` | code/filesys/filesys.cc:257-288 | Remove keeps the invariant |
| `FileSystemInvariant.WriteKeeps` | code/filesys/openfile.cc:146-186 | writing to an open file keeps the invariant |
| `FileSystemRefinement.CreateAddsFile` | code/filesys/filesys.cc:174-215 | Create adds a file of the given length under a new name and leaves all others alone |
| `FileSystemRefinement.RemoveDropsFile` | code/filesys/filesys.cc:257-288 | Remove succeeds exactly for a name that exists, drops it and leaves all others alone |
| `FileSystemRefinement.WritePatchesFile` | code/filesys/openfile.cc:146-186 | a write changes exactly its range of its file and no other file |
| `FileSystemRefinement.StepRefinesMap` | code/filesys/filesys.cc:174-288 | each operation on the disk does to the map from names to contents what it should; Create succeeds if and only if the name is new, there are fewer than ten files, and their sectors and the new ones are at most 1019 |
| `FileSystemRefinement.FsRunRefinesMap` | code/filesys/filesys.cc:80-288 | over every sequence of format, Create, Remove and writes by name the invariant holds and the disk behaves as that map |
| `FileSystemRefinement.RemoveUndoesCreate` | code/filesys/filesys.cc:257-288 | Remove after Create succeeds and restores the free set and what every name finds |
| `FileSystemCapacity.FreeAndOwned` | code/filesys/filesys.cc:80-143 | clear bits of the free map and sectors of all files add up to the disk |
| `FileSystemRefinement.RoomLeft` | code/filesys/filesys.cc:174-215 | free sectors plus header and data sectors of the named files are 1019, and a directory slot is free exactly while there are fewer than ten files |
| `OpenHandles.WritesAreSafeIff` | code/filesys/openfile.cc:146-186 | every write through an opened file keeps the file system in order and changes that file and no other, and nothing if it is gone, if and only if the file is still in the directory or every file there shares no sector with it |
| `OpenHandles.OthersApart` | code/filesys/filesys.cc:227-241 | a file opened and still in the directory shares no sector with any other file there |
| `OpenHandles.SectorIsReused` | code/filesys/filesys.cc:176-288 | creating a file, removing it and creating another, neither of them empty, gives the new one the first data sector of the old |
| `OpenHandles.StaleHandleIsHarmful` | code/filesys/filesys.cc:257-288 | so when a file is opened, removed and any other created, of whatever lengths but empty, the opened file is gone and some write through it changes the new one |
| `OpenHandles.HandleRunIsSafe` | code/filesys/filesys.cc:80-288 | over every run of creating, removing, opening and writing, by name or through opened files while that condition holds, the invariant holds and each write changes the very file that was opened, by slot and count of creations there, and no other |
| `OpenFile.OpenFile.ReadAt` | code/filesys/openfile.cc:116-144 | the bytes of the file at the position: none if none are asked for or the position is at the end or beyond, all asked for if they are there, and the rest of the file otherwise |
| `OpenFile.OpenFile.WriteAt` | code/filesys/openfile.cc:146-186 | exactly that range, cut off in the same way, is patched; no sector outside the file changes; a refused write changes nothing |
| `OpenFile.OpenFile.Read` | code/filesys/openfile.cc:74-80 | as ReadAt at the seek position, which advances by what was read |
| `OpenFile.OpenFile.Write` | code/filesys/openfile.cc:82-88 | as WriteAt at the seek position, which advances by what was written |
| `OpenFile.EndsAreKept` | code/filesys/openfile.cc:161-178 | reading the partial first and last sectors first, when they are partial, preserves every byte around the written range |
| `OpenFile.ReadBackWritten` | code/filesys/openfile.cc:116-186 | after a write, the range reads back as written and every other byte as before |
| `FileSystem.FileHeader.Allocate` | code/filesys/filehdr.cc:41-52 | succeeds exactly when enough sectors are clear; takes them first-fit, or leaves the map alone |
| `FileSystem.FileHeader.Deallocate` | code/filesys/filehdr.cc:61-68 | clears exactly the file's data sectors; its assertion holds |
| `FileSystem.FileIsMarked` | code/filesys/filehdr.cc:61-68 | in a valid disk the sectors of a file are marked and distinct, as Deallocate asserts |
| `FileSystem.Directory.FindIndex` | code/filesys/directory.cc:90-97 | the loop returns the first matching entry or -1 |
| `FileSystem.Directory.Add` | code/filesys/directory.cc:129-143 | adds to the first free slot, exactly if the name is new and a slot is free |
| `FileSystem.Directory.Remove` | code/filesys/directory.cc:153-162 | frees the matching slot, exactly if there is one |
| `FileSystem.FileSystem.Format` | code/filesys/filesys.cc:80-143 | formatting leaves a formatted disk that satisfies the invariant, and opens its two system files from their sectors |
| `FileSystem.FileSystem.Mount` | code/filesys/filesys.cc:137-142 | on a disk in order the two system files are opened with their headers |
| `FileSystem.FileSystem.Create` | code/filesys/filesys.cc:174-215 | adds a file of the given length to the map from names to contents if and only if name, slot and space permit; a failure leaves every sector unchanged; the invariant is kept |
| `FileSystem.FileSystem.Open` | code/filesys/filesys.cc:227-241 | opens exactly the names that exist, with that file's header and contents, at position 0 |
| `FileSystem.FileSystem.Remove` | code/filesys/filesys.cc:257-288 | takes exactly an existing name out of the map from names to contents, freeing its entry and sectors; the invariant is kept |
| `SortedList.InsertIsStable` | code/threads/list.cc:178-202 | insertion keeps the list sorted, adds exactly the new element, after every element of equal key |
| `LinkedList.List.Append` | code/threads/list.cc:76-88 | adds at the end; pointers stay right |
| `LinkedList.List.Prepend` | code/threads/list.cc:102-114 | adds at the front; pointers stay right |
| `LinkedList.List.SortedInsert` | code/threads/list.cc:178-202 | the linked list becomes the stable sorted insertion, with a correct last pointer |
| `LinkedList.List.FindPlace` | code/threads/list.cc:192-198 | the walking loop stops at the last element whose key is not larger |
| `LinkedList.List.SortedRemove` | code/threads/list.cc:217-237 | removes and returns the first element, or nothing from an empty list |
| `Threads.MoveKeeps` | code/threads/scheduler.cc:55-83 | moving a thread between queues keeps every thread in exactly one place and all queues ordered |
| `Places.StepPlaces` | code/threads/scheduler.cc:55-83 | where every thread is after every operation, with its priority: the caller goes on, sleeps on the queue of the operation, or is ready behind another; exactly the best waiter, or each, is woken; Fork adds one ready thread |
| `Places.FinishedIff` | code/threads/thread.cc:165-203 | in every run a thread is finished if and only if it has called Finish |
| `Places.RunnableCanStep` | code/threads/thread.cc:368-416 | while a thread is running or ready, some step is possible |
| `Scheduling.StepEntries` | code/threads/scheduler.cc:55-70 | after any step a queue holds what it held and what the step put there, with the priority its thread then had |
| `Scheduling.BestIsChosen` | code/threads/scheduler.cc:55-83 | over every run, with priorities changing at any time: the processor passes only to the front of the ready list, which has the highest priority of those the listed threads had when queued, in an identified earlier step, and was queued first among equals |
| `Synchronization.AtMostOneHolder` | code/threads/synch.cc:133-188 | two threads that hold a lock are the same thread |
| `Synchronization.PKeeps` | code/threads/synch.cc:61-73 | P keeps: value = initial + Vs - completed Ps and never negative; waiters never outlast the woken |
| `Synchronization.VKeeps` | code/threads/synch.cc:83-92 | V keeps it: with waiters, one more value comes with one more woken thread |
| `Synchronization.AcquireKeeps` | code/threads/synch.cc:133-147 | Acquire keeps mutual exclusion and loses no wake-up |
| `Synchronization.ReleaseKeeps` | code/threads/synch.cc:171-188 | Release keeps it: a lock that becomes free with waiters has a woken thread yet to retest |
| `Synchronization.WaitKeeps` | code/threads/synch.cc:225-244 | Wait releases and sleeps in one step and keeps the invariant |
| `Synchronization.WakeAllKeeps` | code/threads/synch.cc:277-290 | Broadcast keeps the invariant |
| `Synchronization.YieldKeeps` | code/threads/thread.cc:368-381 | Yield keeps the invariant |
| `Synchronization.BlockKeeps` | code/threads/thread.cc:403-416 | going to sleep where nothing is available keeps the invariant |
| `Synchronization.DispatchKeeps` | code/threads/thread.cc:411-415 | the scheduler giving an idle processor to a ready thread keeps the invariant |
| `Synchronization.SetPriorityKeeps` | code/threads/thread.cc:244-246 | changing the priority of any thread at any time keeps the invariant |
| `Synchronization.BootIsValid` | code/threads/synch.cc:35-110 | the initial kernel, with semaphores of any values, satisfies the invariant |
| `Synchronization.StepKeeps` | code/threads/synch.cc:61-290 | every operation of every thread keeps the invariant |
| `Synchronization.EveryRunIsSafe` | code/threads/synch.cc:61-290 | in every interleaving of any number of threads: one place each, semaphores count, at most one holder, no lost wake-up |
| `Effects.StepEffect` | code/threads/synch.cc:61-290 | what each operation does to locks, semaphore values and program counters, whichever threads it wakes or switches to |
| `Effects.StepSleepers` | code/threads/synch.cc:225-290 | only operations on a condition change who sleeps on it: Wait adds the caller, Signal wakes exactly one if there is one, Broadcast wakes all |
| `Join.StepKeeps` | code/threads/thread.cc:165-233 | every step of Join and Finish keeps their agreement and passes the assertions of lock and condition on its way |
| `Join.StepDescends` | code/threads/thread.cc:165-233 | every step lowers a rank: the loop in Finish turns at most once |
| `Join.NoDeadlock` | code/threads/thread.cc:165-233 | until both are at their end one of the two can run |
| `Join.JoinIsSafe` | code/threads/thread.cc:165-233 | in every interleaving Join returns only after the child entered Finish; the child is marked only after Join's last signal and release; lock and queues are then free and empty as the destructors assert |
| `Join.JoinTerminates` | code/threads/thread.cc:165-233 | every interleaving is at most 58 steps long and can stop only with both at their end |
| `Monitors.TakesEffect` | code/threads/synch.cc:62-230 | a statement that asks the kernel for one operation has its effect on lock, conditions and semaphores, and leaves every other thread at its point |
| `Mailbox.OneInside` | code/threads/synch.cc:502-552 | two threads are never inside the monitor at once |
| `Mailbox.RunIsEnabled` | code/threads/synch.cc:502-552 | the assertions of lock and condition hold wherever Send and Receive reach them |
| `Mailbox.StepKeepsMailbox` | code/threads/synch.cc:502-552 | every statement, call, preemption and unrelated kernel step keeps the mailbox invariant |
| `Mailbox.MailboxIsFifo` | code/threads/synch.cc:502-552 | in every run deposited messages are the returned ones in order, then the one in hand or buffered; a full buffer has a receiver; receivePres counts those entered and not yet served |
| `Mailbox.FullBufferIsAttended` | code/threads/synch.cc:502-552 | in every run a full buffer has a receiver on its way to it, or the sender is about to signal: the wake-up of receivers is never lost |
| `Mailbox.CopyTakesOldest` | code/threads/synch.cc:534-552 | the message a receiver copies is the oldest one not yet returned |
| `MailboxCalls.SendDelivers` | code/threads/synch.cc:502-521 | Send(m) with the buffer empty and a receiver present puts exactly m there, wakes one receiver and returns with the lock free |
| `MailboxCalls.SendSleeps` | code/threads/synch.cc:502-508 | otherwise it sleeps with nothing changed and the lock free |
| `MailboxCalls.ReceiveTakes` | code/threads/synch.cc:535-552 | Receive with the buffer full returns its message and empties it, wakes one sender and frees the lock |
| `MailboxCalls.ReceiveSleeps` | code/threads/synch.cc:535-543 | otherwise it is counted, has woken one sender, and sleeps with the lock free |
| `MailboxCalls.WokenReceiverTakes` | code/threads/synch.cc:541-552 | a woken receiver that finds the buffer full returns its message |
| `MailboxCalls.MessageKept` | code/threads/synch.cc:502-521 | however calls interleave, a Send keeps the message it was called with |
| `DiskProtocol.RunIsEnabled` | code/filesys/synchdisk.cc:72-97 | the assertions of lock and semaphore hold wherever ReadSector and WriteSector reach them |
| `DiskProtocol.StepKeepsDisk` | code/filesys/synchdisk.cc:72-109 | every statement, interrupt, preemption and unrelated kernel step keeps the protocol invariant |
| `DiskProtocol.DiskIsNeverAskedWhileActive` | code/machine/disk.cc:117-168 | in every run the disk is idle when a request is made, and a call returns only after its own request completed |
| `DiskProtocol.SleeperHasRequest` | code/filesys/synchdisk.cc:72-109 | a thread asleep in a disk call has its request still under way, so its wake-up is still to come |
| `DiskCalls.AsksThenSleeps` | code/filesys/synchdisk.cc:72-97 | a call for a sector asks the disk for exactly that one and sleeps on the semaphore |
| `DiskCalls.InterruptWakes` | code/filesys/synchdisk.cc:100-109 | the interrupt makes the sleeping caller ready |
| `DiskCalls.WokenReturns` | code/filesys/synchdisk.cc:72-97 | running again it passes the semaphore, frees the lock and returns, its own request the last completed |
| `DiskCalls.SectorKept` | code/filesys/synchdisk.cc:72-97 | however calls interleave, a call keeps its sector |
| `Pipe.ReadTakesOldest` | code/userprog/exception.cc:139-162 | a Read pass takes the oldest character; an empty pipe gives end of stream or waits |
| `Pipe.WriteAddsNewest` | code/userprog/exception.cc:168-190 | a Write pass adds behind the others; a full pipe refuses or waits |
| `Pipe.PipeIsFifo` | code/userprog/exception.cc:139-190 | in every interleaving and for every capacity, returned characters followed by the ring's contents are the accepted ones; end of stream is returned exactly when all were returned and the writing end is closed |
| `Pipe.Pipe.Read` | code/userprog/exception.cc:139-162 | the array, indices and outcome of one pass under the lock are those of the read pass |
| `Pipe.Pipe.Write` | code/userprog/exception.cc:168-190 | the array, indices and outcome of one pass under the lock are those of the write pass |
| `PipeProtocol.RunIsEnabled` | code/userprog/exception.cc:139-190 | the assertions of lock and condition hold wherever Read and Write reach them |
| `PipeProtocol.StepKeepsPipe` | code/userprog/exception.cc:139-190 | every step of a call, opening or closing of an end, preemption and unrelated kernel step keeps the invariant |
| `PipeProtocol.PipeIsSafe` | code/userprog/exception.cc:139-190 | in every run with the waiting loops, the lock and the broadcasts, returned characters and the ring are the accepted ones in order, and a reader sleeps only beside an empty ring and a writer beside a full one, or a broadcast is about to come |
| `PipeProtocol.OneInside` | code/userprog/exception.cc:139-190 | two threads are never inside the pipe at once |
| `PipeCalls.ReadReturnsOldest` | code/userprog/exception.cc:139-161 | Read of a pipe that is not empty returns the oldest character, leaves the rest, wakes all sleepers and frees the lock |
| `PipeCalls.ReadEndsStream` | code/userprog/exception.cc:139-161 | Read of an empty pipe whose writing end is closed returns end of stream |
| `PipeCalls.ReadSleeps` | code/userprog/exception.cc:139-161 | Read of an empty pipe whose writing end is open sleeps with nothing changed |
| `PipeCalls.WriteAccepts` | code/userprog/exception.cc:165-190 | Write to a pipe that is not full returns 1 with the character behind the others, wakes all sleepers and frees the lock |
| `PipeCalls.WriteRefuses` | code/userprog/exception.cc:165-190 | Write to a full pipe whose reading end is closed returns 0 and changes nothing |
| `PipeCalls.WriteSleeps` | code/userprog/exception.cc:165-190 | Write to a full pipe whose reading end is open sleeps with nothing changed |
| `PipeCalls.ArgumentKept` | code/userprog/exception.cc:139-190 | however calls interleave, a Write keeps its character and a call the result of its pass |
| `Multiply.Mult` | code/machine/mipssim.cc:635-692 | for all inputs hi and lo hold the exact double-length product, as two's complement or unsigned, including the most negative value and the early exit |
| `Multiply.ShiftAndAdd` | code/machine/mipssim.cc:657-678 | the loop computes the exact product of the registers read as unsigned |
| `Multiply.SignRestored` | code/machine/mipssim.cc:643-688 | complementing the product of magnitudes when signs differ gives the signed product |
| `Interrupts.FireDescends` | code/machine/interrupt.cc:315-337 | handlers schedule strictly in the future, so firing lowers the number of due interrupts by one |
| `Interrupts.DrainKeeps` | code/machine/interrupt.cc:170-171 | the drain loop keeps the invariant and leaves nothing due, or a lone timer on an idle machine |
| `Interrupts.PutBackYieldsToTies` | code/machine/interrupt.cc:301-313 | looking at an interrupt that is not due lets one of equal time go first |
| `Interrupts.TiesCanSwap` | code/machine/interrupt.cc:301-313 | a run in which, of two interrupts scheduled one after the other for the same time, the second fires first |
| `Ties.TiesFireRotated` | code/machine/interrupt.cc:301-313 | for any group of interrupts of equal time at the head of the list, any handlers and any n: after n ticks before they are due the group fires rotated by n |
| `Ties.TiesKeepOrderIff` | code/machine/interrupt.cc:301-313 | so they fire in the order listed if and only if n is a multiple of their number |
| `Interrupts.OneTickKeeps` | code/machine/interrupt.cc:151-180 | a tick advances time by the tick of its mode, fires what became due, and leaves nothing due |
| `Interrupts.IdleKeeps` | code/machine/interrupt.cc:211-235 | an idle machine moves to the next interrupt exactly on time; it halts exactly when nothing or only the timer is pending |
| `Interrupts.InterruptsAreOnTime` | code/machine/interrupt.cc:115-337 | in every run and for any handlers: fired in nondecreasing scheduled time, never early, at most one system tick late; total = idle + system + user; each scheduled interrupt fired once or is pending once |
| `HandlerEffects.DrainObeys` | code/machine/interrupt.cc:170-171 | draining does exactly what the handlers it invokes ask for: their interrupts are scheduled for the times asked, and a switch is pending if and only if it was or one of them asked for it |
| `HandlerEffects.TickIsExact` | code/machine/interrupt.cc:151-180 | a tick adds 10 to system time or 1 to user time by its mode, and yields if and only if a switch was asked for before or by a handler it invoked |
| `HandlerEffects.IdleIsExact` | code/machine/interrupt.cc:211-235 | idling moves time exactly to the first pending interrupt, which fires; time goes to idle ticks alone and no yield is left over |
| `HandlerEffects.RunIsExact` | code/machine/interrupt.cc:115-337 | over every run system time is ten per tick in system mode and user time one per tick in user mode, and a tick yields if and only if a handler invoked in it asked for it |
| `InterruptDevice.Interrupt.Schedule` | code/machine/interrupt.cc:265-276 | the linked pending list becomes the sorted insertion, by the contract of SortedInsert, for the time asked for |
| `InterruptDevice.Interrupt.CheckIfDue` | code/machine/interrupt.cc:291-337 | taking from the linked list, putting back and firing leave clock, list, status and result as the function CheckIfDue says; the pending load is delivered exactly when an interrupt fires, and a switch is pending exactly if it was or that handler asked for it |
| `InterruptDevice.Interrupt.FireDue` | code/machine/interrupt.cc:170-171 | the loop ends and has drained what was due; any number of firings deliver the pending load once |
| `InterruptDevice.Interrupt.OneTick` | code/machine/interrupt.cc:151-180 | the clock is one tick on, counted for its mode; the pending load is delivered exactly when something fired; yields exactly if a switch was asked for before or by a handler it invoked |
| `InterruptDevice.Interrupt.SetLevel` | code/machine/interrupt.cc:115-128 | time advances exactly when interrupts go from off to on, and it yields exactly as that tick does |
| `InterruptDevice.Interrupt.Idle` | code/machine/interrupt.cc:211-235 | clock and result are those of the function Idle; time goes to idle ticks alone |
| `DiskTiming.FirstPass` | code/machine/disk.cc:204-211 | ModuloDiff leads to the first slot in which the sector passes, and no earlier one does |
| `DiskTiming.LatencyBounds` | code/machine/disk.cc:181-255 | every latency is between 500 and 31999 ticks |
| `DiskTiming.LatencyBoundsAreTight` | code/machine/disk.cc:181-255 | both bounds are reached |
| `DiskTiming.LatencyIsExact` | code/machine/disk.cc:181-255 | a request not served from the buffer ends one sector time after the head first reaches the sector, and no earlier time would do |
| `DiskTiming.FromBufferIff` | code/machine/disk.cc:241-249 | the buffer serves a request if and only if it is a read of the current track whose sector went past in full since the buffer began to load |
| `DiskTiming.BufferHoldsWhatPassed` | code/machine/disk.cc:234-273 | in every run of one request at a time that holds, and the head has not left its track since the buffer began to load |
| `DiskTiming.UpdateIsExact` | code/machine/disk.cc:261-272 | only a seek starts the buffer again, at the first slot boundary with the head on the new track |
| `DiskTiming.Disk.StartRequest` | code/machine/disk.cc:117-155 | a loaded read takes 500 ticks; any other request ends when the sector has first passed once the head is on its track; 500 to 31999 ticks; only a seek restarts the buffer, at the first slot on the new track |

## Left out

- The TLB build, user `Fork` with `allocateThreadSpace` (frames outside the core map's accounting), and `CoreMap::evictAll` (not called).
- `LoadArguments` and `readArgument`: they do not retry an access that faulted, so they are correct only for resident pages.
- Whale matching: several callers of one kind can pass during one match.
- Liveness of `Mailbox` and `Pipe` beyond calls that nothing interrupts: `Receive` does not signal senders after emptying the buffer, so a sender can sleep beside an empty buffer and a waiting receiver; closing a pipe end wakes no one.
- The decoding of MIPS instructions: decoding is any function from words to instructions, and `Cpu` has classes of instructions with any functions for their values; `Mnemonics`, `Results` and `LoadsAndStores` fix these for the instructions by name.
- Partial loads and stores (LWL, LWR, SWL, SWR): only at the aligned addresses that the original asserts.
- NOFF header parsing and its bad-magic error.
- `BitMap`: a word is 32 booleans, not an `int` with shifts.
- `DiskLayout`: unused header slots and structure padding are written as zero, which the original leaves undefined.
- `Machine`: page tables, address spaces and the frame bitmap are sequences held in fields, so aliasing between them is not modelled; main memory, registers and the core map's nodes are arrays and objects.
- `Progress.TwoFaultsSuffice`: for at most two pages, which is every instruction that does not use a pending load target (`Progress.IndependentNeedsTwo`); `Progress.ThreeFaultsSuffice` and `Progress.CompletesIff` have no such condition.
- `FileSystemRefinement.FsRunRefinesMap`: writes go to names that exist; `OpenHandles.HandleRunIsSafe` has writes through files opened earlier.
- `InterruptDevice.Interrupt.OneTick`: stops before the context switch it reports; there is always a user machine, whose registers the interrupts find.
- `Threads` and `Synchronization`: the scheduler's and primitives' objects are values of a step system, not classes; context-switch code and stacks are left out.
- `Join`: one joiner and a joinable child; a child that is not joinable has no partner to wait for.
- `Pipe.Pipe.Read`: one pass of the waiting loop; `PipeProtocol` has the loop, the lock and the broadcast.
- `Pipe.Pipe.Write`: one pass of the waiting loop; `PipeProtocol` has the loop, the lock and the broadcast.
- `DiskProtocol`: the contents transferred are not part of the protocol; `OpenFile` has them, with sector operations as single steps.
- Consoles, network, timer randomness, host files, statistics other than ticks, debugging output, and the stub file system.
