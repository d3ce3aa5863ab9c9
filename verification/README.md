# Kontain Monitor (km): a Dafny model of its state machines and codecs

km is a small virtual machine monitor: it runs one program as the guest of a virtual machine, keeps the
guest's physical memory and page tables, its file descriptors, its threads (virtual cpus), and serves a
debugger. This project models the parts of km whose correctness is not visible in any single function,
and proves what they keep over whole runs.

## What is modelled

**Guest memory** (`Geometry`, `PageTables`, `PageTableProofs`, `PageTableLoops`, `GuestMemory`, `Translation`).
Physical memory of size 2^k is cut into regions that double up to the middle and then mirror. `Machine` is the
monitor's state: the two breaks, the table of plugged regions and the page-table arrays. `Brk` and `Tbrk` plug
and unplug regions, share one where the zones meet, roll back when the host refuses, and rewrite the page
tables. Over every run of calls, with any answers of the host, the invariant `Inv` holds; from it follow the
page walk of every address and the safety of the monitor's own address translation. k (31 to 39), the position
of the top zone and the host address at which guest memory starts stay symbolic.

**File descriptors** (`DupGroups`, `FdState`, `FdEffects`, `FdOrigins`, `FdTable`, `DupNotes`, `FdRecovery`,
`FdAfter`, `FdRestore`). km keeps by hand a list of groups of descriptors that are dups of each other. `FdState`
is the state machine of the descriptor table next to what the host kernel knows (which open file description is
behind each descriptor); groups and sharing agree over every run, and partner links of pipes and socket pairs
stay symmetric. `FdEffects` says what each call does, without the state machine's functions: who is in use, on
which description, grouped with whom, under which record, and that all others are as they were. When the
inherited streams share descriptions, groups are common origin (`FdOrigins`). `FdTable.Table` is the table as
the source keeps it, each call proved to be one step with that effect. A snapshot writes the groups as a note
and recovers the files in ascending order; `SharingSurvives` says exactly when sharing survives that,
`AfterAgrees` and `AfterPartners` which properties of a running table hold in the recovered one, and
`SnapshotRestore` puts note, reading and recovery together. The invariant of a running table always holds again,
so that the statements about runs apply after a recovery too.

**Process start** (`ProcessStack`, `InitStack`). The initial stack is written downward into an array of
bytes; what a new process reads upward from the stack pointer, by section 3.4 of the System V AMD64 psABI,
is an independent definition, and the two are proved to meet: for all strings, what is read is given in
closed form, and it is what was passed exactly under the stated condition; the auxiliary vector is stated key
by key, with what its pointers point at.

**Exec state** (`TextFormat`, `ExecState`, `ExecFd`). The descriptors that cross an execve travel as text.
Printing and parsing are modelled down to the conversions of printf and scanf; parsing the printed text
gives the entries back exactly when every event entry has an event.

**Core files** (`CoreFile`, `CoreDump`). One pass counts program headers, one writes them with the offsets
the data will have, one writes the data. Position and length of the file are kept apart, as a seek past the
end moves only the position. `DumpCore` says exactly when a dump reports success, and exactly when the file
is then the one its headers describe, with partial writes and holes over unreadable memory.

**Debugger** (`Breakpoints`, `GdbEscape`, `GdbPacket`). Software breakpoints are an overlay on memory that
the debugger never sees and that removal undoes; hardware breakpoints are decoded from the debug registers
they were encoded into, exactly when their lengths are in the table of length codes where that matters.
The packet receiver and the two escapers of the GDB Remote Serial Protocol.

**Instruction decoder** (`Decoder`). The address a faulting instruction touches, against the encoding of
memory operands in section 2.1.5 of the Intel SDM, Volume 2: an address is found exactly when an encoding
that the decoder can read stands in memory with it.

**Virtual cpus and fork** (`VcpuPool`, `ForkHandshake`). The pool of virtual cpus over any sequence of its
operations, and the handshake between threads that ask for a fork and the main thread, with its wait set,
its wake-up event and the result words of the callers, over every interleaving of their steps.

`Wrappers`, `Sequences`, `MachineWords` and `HexDigits` hold what several of these share.

Host calls (mmap, KVM ioctls, open, dup, write, getrandom, mprotect) are parameters: the model is told what
the host answered, and the proofs hold for every answer.

## What the proofs found

- `km_mem_tbrk` moving the top break up can leave 2MB entries present below it (km/km_mem.c:680-685).
  `Tbrk` states exactly when (`LeavesStale`), and `StaleHappens` is a run that does it. The entries still point
  into a plugged region (`WalkSound`).
- In the low position of the top zone the check of guest addresses refuses the vdso and km_guest windows, which
  lie above the end of that zone (`KmaWindows`).
- Descriptors 0, 1 and 2 may be inherited on one open file while the dup groups start empty: the groups
  agree with sharing from the start exactly when the three are different files (`InitialAgrees`), and over
  a run exactly while no two descriptors come from different streams on one description (`RunOrigins`).
- A recovered standard descriptor whose group has an open member becomes a dup of that member even when
  the member is itself still to be recovered; the two then part (`SharingLost`, exact in `SharingSurvives`).
- `km_fs_recover_open_file` stores a file position in the field that holds the partner of a pipe
  (km/km_filesys.c:3390). So partner links hold after recovery exactly when the positions of the files
  opened afresh pair up, and freeing a recovered descriptor stays within the table exactly when they lie in
  it (`AfterPartners`); a file at position 7 is a counterexample (`PositionBecomesPartner`).
- A standard descriptor that recovery makes a dup leaves its group and is not put back, so that groups and
  sharing disagree after recovery exactly when two standard descriptors end up on one inherited description
  (`AfterAgrees`); standard error redirected to standard output on a terminal is such a case (`GroupIsLost`).
- An event descriptor without events is printed without its closing brace, and what follows it is then
  taken for its event (`EmptyParsed`, exact in `RoundTrip`).
- The result of writing the header of a mapping is not looked at (km/km_coredump.c:843-847): when the host
  refuses one, the dump still succeeds and the notes are not where their header says (`DumpCore`;
  `DumpWithoutHeader` is such a run for every machine with a mapping).
- Over memory that cannot be read the dump only seeks (km/km_coredump.c:73-78): when that happens at the end,
  the dump succeeds and the file ends before its last segment does (`DumpCore`; `DumpWithoutMemory` is such a
  run for every machine with memory to dump).
- The end of the dynamic linker is taken as linked, not as loaded (km/km_coredump.c:735-744): when it is later than
  the end of the program, no segment is extended, and memory up to the break is not dumped with the program
  (`BreakDumped`, `WhoEndsLast`).
- The receive buffer is static and its third character is looked at even for shorter packets, so a one
  character packet after one with ':' in third place is taken to carry a sequence id (`StaleColon`, exact
  in `ReceiveInvertsSend`).
- The decoder takes no displacement and RBP or R13 as the base for the two forms that have a 32-bit
  displacement with mod 0 (`DecodesExactly`, `RipRelativeMissed`). It consumes opcodes of instruction groups
  as prefixes: such an instruction is decoded as if it began at its ModRM byte, or after REX not at all
  (`GroupDecoded`, `GroupAfterRex`, `GroupOpcodeMissed`). Floating-point opcodes are in no table (`OpcodesCovered`).
- A thread that was woken to fork and whose registers cannot be read leaves without signalling
  (km/km_fork.c:255-258); other waiters are forgotten exactly when nobody else had been woken (`RunAwake`,
  `WaiterForgotten`).
- `km_vcpu_fetch_by_tid` never finds the last of the 288 vcpus (`TidInverts`).
- The length of a hardware breakpoint is not checked against the table of length codes (km/gdb_kvm_x86_64.c:234):
  a length above 8 takes whatever byte stands past the table, whose upper bits change the conditions of the
  next two slots (`Dr7Decodes` and `HwBreakIs` say exactly when not; `LongWatchMisread` is a run).
- A read watchpoint is given condition code 2 (km/gdb_kvm_x86_64.c:206), which in the Intel SDM means port
  accesses: it never stops on a read of memory (`SlotStops`).
- Adding a hardware watchpoint at an address that has a hardware breakpoint reports success and sets
  nothing (`AddHw`).
- A string longer than PATH_MAX is put on the initial stack without a terminator and runs on into what
  follows it (`LongArg`, `LongEnv`, exact in `ReadsBack`; `LongRunsOn` is such a start).
- Comments and code disagree in places; the model follows the code: the length codes of debug registers
  (km/gdb_kvm_x86_64.c:210-213 has the comments of 4 and 8 exchanged), the size of the null entry of the
  auxiliary vector (km/km_init_guest.c:129-130 says 8 bytes, the code writes 16), and the value
  `km_init_main` returns (the address of argc, not of argv).

## Model

| member | source | states |
|---|---|---|
| Geometry.RegionsTile | km/km_mem.h:191-216 | regions 1 to last-1 tile [2MB, max-2MB): first base, last top, each top is the next base, size is top minus base |
| Geometry.RegionsMeet | km/km_mem.h:194-208 | region tops and bases meet, and the layout is its own mirror image |
| Geometry.BaseTop | km/km_mem.h:191-216 | closed form of base and top: both halves use the same powers of two, from either end |
| Geometry.RegionsOrdered | km/km_mem.h:191-216 | two different regions never overlap |
| Geometry.RegionHolds | km/km_mem.h:182-189 | the computed region index is a proper region and that region contains the address |
| Geometry.RegionUnique | km/km_mem.h:182-189 | no other region contains the address |
| Geometry.RegionMonotone | km/km_mem.h:182-189 | the region index never decreases with the address |
| Geometry.RegionEnds | km/km_mem.h:182-189 | just below 2MB is region 0, the hidden last 2MB are the last region |
| Geometry.Shape | km/km_mem.c:541-544 | for every memory size 2^k: middle and last index, and how memory and address offset are aligned |
| PageTableLoops.Frame2M | km/km_mem.c:694-718 | the loop over 2MB entries writes consecutive frames and touches nothing else |
| PageTableLoops.Frame1G | km/km_mem.c:694-718 | the loop over 1GB entries writes consecutive frames and touches nothing else |
| PageTableLoops.Blank2M | km/km_mem.c:720-745 | the loop clears exactly the 2MB entries of the region |
| PageTableLoops.Blank1G | km/km_mem.c:720-745 | the loop clears exactly the 1GB entries of the region |
| PageTableLoops.SetPresent | km/km_mem.c:567-630 | the loop flips exactly the present bits of a range of entries |
| PageTableProofs.MapBottom | km/km_mem.c:694-718 | plugging a region below keeps all frames right and changes no present bit of the zones |
| PageTableProofs.MapTop | km/km_mem.c:694-718 | the same for a region of the top zone |
| PageTableProofs.UnmapBottom | km/km_mem.c:720-745 | unplugging a region below keeps the frames of the rest and loses only its own present bits |
| PageTableProofs.UnmapTop | km/km_mem.c:720-745 | the same for a region of the top zone |
| PageTableProofs.FixBottomExact | km/km_mem.c:567-630 | after the fixup the bottom zone's present bits are exactly those of [2MB, brk), whichever way the break moved |
| PageTableProofs.FixTopIs | km/km_mem.c:632-687 | which entries the four cases of the top fixup flip, in terms of the two breaks |
| PageTableProofs.ShrunkTop2M | km/km_mem.c:665-687 | after moving the top break up, no 2MB entry is present below it if and only if the move is not one that leaves entries stale |
| PageTableProofs.GrownTop2M | km/km_mem.c:646-664 | moving the top break down keeps exact 2MB entries exact |
| GuestMemory.InitialState | km/km_mem.c:445-544 | the state set up at start satisfies the whole invariant, with exact present bits |
| GuestMemory.Machine.MemInit | km/km_mem.c:508-552 | initialisation establishes the invariant with both breaks at their ends, and the first region at its host address |
| GuestMemory.Machine.SetHierarchy | km/km_mem.c:694-718 | in-place update of the arrays is the mapping of the region's range |
| GuestMemory.Machine.ClearHierarchy | km/km_mem.c:720-745 | in-place update of the arrays is the unmapping of the region's range |
| GuestMemory.Machine.AllocRegion | km/km_mem.c:753-779 | the slot is filled and mapped exactly when the host grants it, at the host address that is its physical address from the start of guest memory; otherwise nothing changes |
| GuestMemory.Machine.FreeRegion | km/km_mem.c:781-797 | the slot is cleared and its range unmapped |
| GuestMemory.Machine.FixupBottom | km/km_mem.c:567-630 | the in-place bit flips are the specified ones |
| GuestMemory.Machine.FixupTop | km/km_mem.c:632-687 | the in-place bit flips are the specified ones |
| GuestMemory.Machine.Brk | km/km_mem.c:810-866 | keeps the invariant; moves exactly when the break stays clear of the top break and the host grants every region that is not shared; otherwise break and slots are as before |
| GuestMemory.Machine.Tbrk | km/km_mem.c:873-927 | the same for the top break; 2MB entries stay exact if and only if the move leaves none stale |
| GuestMemory.StaleHappens | km/km_mem.c:680-685 | a run of initialisation and two moves of the top break that ends with 2MB entries present below it |
| GuestMemory.Run | km/km_mem.c:810-927 | every run of break calls from start-up, with any answers of the host, ends in the invariant: slots, frames, roots and present bits |
| Translation.BottomWalk | km/km_mem.c:567-630 | below the top break, a bottom address translates, and to itself, if and only if its page meets [2MB, brk) |
| Translation.TopWalk | km/km_mem.c:632-718 | every address from the top break up translates to its physical address |
| Translation.WalkSound | km/km_mem.c:445-797 | whatever the page walk reaches, outside the private window and the hidden last 2MB, lies in a plugged region, whose host address is as far from the address the monitor computes as its physical address from the one reached |
| Translation.KmaSafe | km/km_mem.h:241-274 | for every address outside the windows that the monitor's page-rounded check accepts, the processor reaches a plugged region, and the host address given lies in that region at the same distance from its start; all of both zones is accepted |
| Translation.KmaWindows | km/km_mem.h:241-274 | an address of the vdso or km_guest window is accepted if and only if it lies below the end of the top zone, none in the low position, and then at its place in its own area |
| DupGroups.JoinedPair | km/km_filesys.c:512-548 | a dup joins the group of its original and no other pair changes |
| DupGroups.JoinedWellFormed | km/km_filesys.c:512-548 | groups stay disjoint, duplicate-free and of size at least 2 |
| DupGroups.LeftPair | km/km_filesys.c:553-585 | closing separates the descriptor from its group and no other pair changes |
| DupGroups.LeftWellFormed | km/km_filesys.c:553-585 | groups stay disjoint, duplicate-free and of size at least 2, and the descriptor is in none |
| FdState.UnlinkedSlots | km/km_filesys.c:678-714 | freeing a slot clears the link of its partner, if that links back, and no other |
| FdState.DeletedKeeps | km/km_filesys.c:678-714 | freeing a slot keeps the invariant, the agreement of groups with sharing, and partner links symmetric and in the table |
| FdState.DuppedOntoKeeps | km/km_filesys.c:1655-1696 | dup onto a free or a used descriptor keeps the same |
| FdState.PairedKeeps | km/km_filesys.c:1708-1737 | pipe and socketpair keep the same |
| FdState.StepKeeps | km/km_filesys.c:767-862 | every call, with any answer of the host, keeps the invariant, and each of the other three properties whether or not the rest hold; what the call does is stated by StepDoes |
| FdState.RunKeeps | km/km_filesys.c:501-714 | over every run, also from a recovered table: groups stay well formed; if groups are sharing, they stay so; if partner links are symmetric, or in the table, they stay so; what the calls of a run do is stated by RunDoes |
| FdEffects.StepDoes | km/km_filesys.c:767-862 | for every call and answer of the host. dup and dup3: the new descriptor is in use, on the description of the original, grouped with it and its group and no other, with its name and kind; open: on a description no other descriptor has, in no group; close: not in use, and open on the host only if it was in error; pipe and socketpair: both in use, each the other's partner, with their own kinds; every other descriptor keeps slot, description and groups, but for the link of a partner; a refused call changes nothing |
| FdEffects.RunDoes | km/km_filesys.c:501-862 | every call of every run has that effect |
| FdState.InitialAgrees | km/km_filesys.c:3675-3723 | groups agree with sharing at start if and only if the three inherited descriptors are different files |
| FdOrigins.StepMirrors | km/km_filesys.c:767-862 | a call acts alike on a table and on its copy whose streams are different files |
| FdOrigins.RunOrigins | km/km_filesys.c:501-714 | over every run, whatever the streams share: two descriptors are in one group if and only if they come from one stream or one open call; groups agree with sharing if and only if no two descriptors in use come from different streams on one description |
| FdTable.Table.Find | km/km_filesys.c:519-530 | the search returns the first group that lists the descriptor and its place there |
| FdTable.Table.AddToDupData | km/km_filesys.c:512-548 | the group list changes as specified, and not at all during recovery |
| FdTable.Table.CloseDup | km/km_filesys.c:553-585 | the group list changes as specified |
| FdTable.Table.AddGuestFd | km/km_filesys.c:608-632 | the whole new table |
| FdTable.Table.DelGuestFd | km/km_filesys.c:678-714 | the whole new table, group list included, and whether the partner's record it looks at is inside the table |
| FdTable.Table.InstallDup | km/km_filesys.c:1680-1692 | replacing or filling a slot with a dup is the specified step, in and out of recovery |
| FdTable.Table.FsOpen | km/km_filesys.c:767-788 | one step of the state machine, with the effect of an open: in use under the given record, alone on its description, all others as they were |
| FdTable.Table.FsDup | km/km_filesys.c:1627-1652 | one step of the state machine, with the effect of a dup: the new descriptor in use on the description of the original, in its group, with its name and kind, all others as they were; and every error return |
| FdTable.Table.FsDup3 | km/km_filesys.c:1655-1696 | one step of the state machine, with the effect of a dup onto a given descriptor, whose former partner loses its link; and every error return in its order |
| FdTable.Table.FsDup2 | km/km_filesys.c:1699-1705 | one step of the state machine, with the same effect and every return value; nothing for equal descriptors |
| FdTable.Table.FsClose | km/km_filesys.c:834-862 | one step of the state machine, with the effect of a close: not in use, in no group, its partner without a link, open on the host only if in error; and every error return |
| FdTable.Table.ConnectFiles | km/km_filesys.c:639-645 | the whole new table: the two become each other's partner |
| FdTable.Table.FsPair | km/km_filesys.c:1708-1737 | one step of the state machine, with the effect of a pair: both in use, each the other's partner, with their own kinds, modes and names, each alone on its description |
| FdTable.Table.constructor | km/km_filesys.c:3689-3723 | the initial table |
| DupNotes.NoteSize | km/km_filesys.c:2517-2524 | the note occupies exactly the announced number of bytes |
| DupNotes.DupNotesLength | km/km_filesys.c:2517-2524 | the loop computes that number |
| DupNotes.CoreDupWrite | km/km_filesys.c:2996-3019 | the buffer holds exactly the note, and nothing beyond it changes |
| DupNotes.RecoverDupData | km/km_filesys.c:3285-3316 | reading a written note gives the same groups in the same order |
| FdRecovery.AttachEffect | km/km_filesys.c:3354-3360 | recovering a descriptor as a dup changes its slot only, and takes it out of its group if it was open |
| FdRecovery.OthersLeft | km/km_filesys.c:553-585 | when a descriptor leaves, the lists of the others' group members lose it and keep their order |
| FdRecovery.StdRun | km/km_filesys.c:3338-3360 | what recovery makes of descriptors 0, 1 and 2: inherited, dup of a named member, or opened afresh |
| FdRecovery.RestRun | km/km_filesys.c:3318-3398 | groups and sharing agree on the descriptors recovered so far that kept their group |
| FdRecovery.SharingSurvives | km/km_filesys.c:3285-3398 | sharing after recovery equals sharing when saved if and only if the inherited streams are different files and every standard descriptor recovered as a dup lands on an inherited stream of its group |
| FdRecovery.SharingLost | km/km_filesys.c:3354-3360 | a concrete snapshot whose two dups are separated |
| FdAfter.AfreshFound | km/km_filesys.c:476-499 | a descriptor is opened again, not made a dup, if and only if it is the lowest of its group among those that kept it |
| FdAfter.RecordsRun | km/km_filesys.c:3318-3398 | a file opened afresh has the saved kind, flags and name; of the flags of a dup only close-on-exec is kept |
| FdAfter.AfterOk | km/km_filesys.c:3285-3398 | the invariant of a running table holds after recovery, so that every statement about runs applies |
| FdAfter.AfterPartners | km/km_filesys.c:3390 | after recovery partner links are symmetric if and only if the positions of the files opened afresh pair up, and lie in the table if and only if those positions do |
| FdAfter.AfterAgrees | km/km_filesys.c:3338-3360 | after recovery groups agree with sharing if and only if no two standard descriptors end up on one inherited description |
| FdAfter.PositionBecomesPartner | km/km_filesys.c:3390 | a concrete snapshot, one file at position 7, after which partner links are broken |
| FdAfter.GroupIsLost | km/km_filesys.c:3354-3360 | a concrete snapshot, 2>&1 on a terminal, whose sharing is restored and whose group is not |
| FdRestore.CheckForDups | km/km_filesys.c:476-499 | the first other open member of the descriptor's group, -2 for none, -1 for no group |
| FdRestore.RecoverOpenFile | km/km_filesys.c:3318-3398 | the table changes as the recovery step specifies |
| FdRestore.IsRestored | km/km_filesys.c:3285-3398 | what recovery restores, in one place: the invariant always; the records of the files; sharing, its agreement with groups, partner links and their range each exactly under its condition |
| FdRestore.RecoverOpenFiles | km/km_filesys.c:4162-4170 | the loop over the saved files ends in the specified state, a valid table again, with all of that |
| FdRestore.SnapshotRestore | km/km_filesys.c:2996-3398 | end to end: writing the note of one table, reading it into the recovering one and recovering the files gives the specified state, with all of that |
| ProcessStack.TableIs | km/km_init_guest.c:211-224 | a table of nonzero words with a zero word after it reads back |
| ProcessStack.AuxvIs | km/km_init_guest.c:143-153 | an auxiliary vector closed by AT_NULL reads back |
| ProcessStack.StringIs | km/km_init_guest.c:85-86 | a terminated string reads back |
| ProcessStack.StringGoesOn | km/km_init_guest.c:85-86 | a string without a terminator is read on into what follows |
| InitStack.PushEnv | km/km_init_guest.c:74-87 | succeeds if and only if all environment strings fit the limit; contents, pointers and nothing below changed |
| InitStack.PushArgs | km/km_init_guest.c:91-104 | succeeds if and only if the strings so far fit the limit; contents, pointers and nothing below changed |
| InitStack.PhdrAddress | km/km_init_guest.c:171-194 | the program header address: PT_PHDR if there is one, else from the first PT_LOAD |
| InitStack.PushAuxv | km/km_init_guest.c:142-203 | the entries stand below the old top in order, closed by AT_NULL |
| InitStack.PushInfo | km/km_init_guest.c:106-141 | platform string, random bytes if all 16 came, and the alignment rule |
| InitStack.InitMain | km/km_init_guest.c:64-228 | exactly when each size error occurs; otherwise the finished image, inside the 2MB, nothing below it changed, the saved copy of the auxiliary vector, and what the new process reads: strings, exactly when that is what was passed, and the auxiliary vector key by key |
| InitStack.ArgAt | km/km_init_guest.c:91-104 | every argument string stands where its pointer points, terminated unless longer than PATH_MAX |
| InitStack.EnvAt | km/km_init_guest.c:74-87 | every environment string stands where its pointer points, terminated unless longer than PATH_MAX |
| InitStack.Aligned | km/km_init_guest.c:127-141 | the stack pointer is a multiple of 16 |
| InitStack.ReadsBack | km/km_init_guest.c:64-228 | for all strings: a process reading upward finds argc, the auxiliary vector and, in closed form, the strings, at an aligned pointer; these are argv and envp if and only if every overlong string happens to be continued by its own rest; what the vector says is stated by VectorTells |
| InitStack.VectorTells | km/km_init_guest.c:106-203 | in the vector the new process reads each key occurs at most once; AT_ENTRY, AT_PHDR (from the first PT_PHDR, else the first PT_LOAD), AT_PHENT, AT_PHNUM, AT_PAGESZ, AT_CLKTCK, AT_MINSIGSTKSZ, AT_FLAGS, AT_SECURE and the four ids have the values of the program; AT_BASE is there if and only if there is a linker, AT_SYSINFO_EHDR if and only if there is a vdso; AT_PLATFORM points at "X86_64", AT_RANDOM at the 16 bytes if they came, AT_EXECFN is argv[0] |
| InitStack.HeadersFound | km/km_init_guest.c:171-194 | the address of the program headers, by the first header of each type |
| InitStack.LongArg | km/km_init_guest.c:91-104 | an overlong argument is read cut and followed by what is read at the next byte; it reads back if and only if that is its rest |
| InitStack.LongEnv | km/km_init_guest.c:74-87 | the same for an overlong environment string |
| InitStack.AfterArgsIs | km/km_init_guest.c:88-89 | what follows the arguments on a stack that was zero: nothing, or the last environment string when no padding was needed |
| InitStack.ShortReadBack | km/km_init_guest.c:64-228 | strings of at most PATH_MAX bytes read back |
| InitStack.LongRunsOn | km/km_init_guest.c:91-104 | a start with an argument of PATH_MAX + 1 bytes and the argument "x", after which the first is read as running on into the second |
| InitStack.InfoReadsBack | km/km_init_guest.c:106-125 | the platform and random pointers point at the platform string and the 16 bytes |
| TextFormat.NumberIs | km/km_exec_fd_save_recover.c:537-628 | a printed number that nothing continues reads back with its sign, in the width of its C type |
| TextFormat.ScanPrinted | km/km_exec_fd_save_recover.c:537-628 | sscanf inverts printf for delimited formats, whatever follows |
| ExecState.HexInverse | km/km_exec_fd_save_recover.c:87-101 | km_hex2bin inverts km_bin2hex |
| ExecState.SimpleParsed | km/km_exec_fd_save_recover.c:537-569 | a file, pipe or socket pair entry parses back |
| ExecState.SocketParsed | km/km_exec_fd_save_recover.c:571-600 | a socket entry parses back, address bytes included |
| ExecState.EventsParsed | km/km_exec_fd_save_recover.c:617-645 | events parse back in order |
| ExecState.EmptyParsed | km/km_exec_fd_save_recover.c:602-650 | an event entry without events does not parse back |
| ExecState.ParseText | km/km_exec_fd_save_recover.c:521-668 | parsing printed text to its end gives the entries if and only if every event entry has an event |
| ExecState.RoundTrip | km/km_exec_fd_save_recover.c:191-668 | saving then restoring is the identity if and only if every event entry has an event |
| ExecFd.Bin2hex | km/km_exec_fd_save_recover.c:56-64 | the loop computes the specified text |
| ExecFd.Hex2bin | km/km_exec_fd_save_recover.c:87-101 | the loop stops at the first character that is no hex digit, with the specified bytes |
| ExecFd.PrintEvents | km/km_exec_fd_save_recover.c:219-239 | the growing text of an event entry is the specified one |
| ExecFd.SaveFd | km/km_exec_fd_save_recover.c:191-307 | the text of all saved slots in order; none exactly when a file cannot be looked up |
| ExecFd.RestoreEvents | km/km_exec_fd_save_recover.c:617-645 | the loop parses as specified, failures included |
| ExecFd.RestoreFd | km/km_exec_fd_save_recover.c:521-668 | the loop over the text parses as specified for every text, failures included |
| CoreFile.OffsetsApart | km/km_coredump.c:771-847 | segment offsets are page aligned, in order, and segments never overlap |
| CoreFile.PageUpSum | km/km_coredump.c:630-662 | rounding the position up before or after a segment gives the same next offset |
| CoreFile.SegmentsEndIs | km/km_coredump.c:771-847 | the end of the segments is an upper bound of the ends of all that have bytes, and one of them |
| CoreFile.File.WriteMem | km/km_coredump.c:65-92 | partial writes are completed, faults in guest memory are seeked over; where the host's answers leave position, length and call count, and whether it succeeds |
| CoreFile.File.GuestWrite | km/km_coredump.c:630-662 | whole pages from the next page boundary on hold the guest memory, once anything is written after them; position, length and success by the host's answers |
| CoreDump.CountPhdrs | km/km_coredump.c:715-756 | one header for the notes and one for each segment that is dumped |
| CoreDump.MaxEndIs | km/km_coredump.c:721-746 | the computed end is an upper bound of all loadable ends and is attained |
| CoreDump.EndLoadIs | km/km_coredump.c:733-746 | the end of the program, or that of the linker as linked if it is later |
| CoreDump.WhoEndsLast | km/km_coredump.c:762-768 | a header is extended if and only if it has the highest end of the program and the linker was not linked to end later |
| CoreDump.BreakDumped | km/km_coredump.c:721-787 | every address from the end of the program up to the break lies in a segment dumped for the program if and only if the dynamic linker was not linked to end later |
| CoreDump.LoadSegmentCovers | km/km_coredump.c:762-787 | what is dumped for a loadable header starts at its page and ends at its own end; for a header of the program that ends last it ends at the break |
| CoreDump.SegmentsAre | km/km_coredump.c:771-851 | what is dumped: a segment for each loadable header of the program and of the linker, and one for each accessible mapping, and no others |
| CoreDump.MappedAre | km/km_coredump.c:833-849 | the segments of the mappings are the accessible ones, with read, write and execute rights as ELF flags, and no others |
| CoreDump.WritePayloadPhdr | km/km_coredump.c:771-796 | the headers of a payload hold the offsets, addresses and sizes of its segments |
| CoreDump.WriteMapPhdrs | km/km_coredump.c:830-849 | the headers of the mappings are in place if and only if the host took them all; otherwise the table is short |
| CoreDump.WritePhdrs | km/km_coredump.c:798-851 | the whole header table |
| CoreDump.DumpPayload | km/km_coredump.c:954-987 | succeeds if and only if the host's answers do; then the memory of a payload's segments stands at the offsets its headers say |
| CoreDump.DumpMaps | km/km_coredump.c:988-1013 | succeeds if and only if every mapping can be made readable and the host's answers do; then the memory of the mappings stands at the offsets their headers say |
| CoreDump.DumpCore | km/km_coredump.c:893-1022 | reports success if and only if every mapping can be made readable and the host takes the headers of the loaded segments, the notes and the data; the file is then the one its headers describe if and only if the host took every header and the last byte written is not before the end of the segments |
| CoreDump.NoFaultReaches | km/km_coredump.c:65-92 | without faults the last byte written is not before that end |
| CoreDump.DumpWithoutHeader | km/km_coredump.c:843-847 | for every machine with a mapping, a dump that reports success and is not complete, as a header was refused |
| CoreDump.DumpWithoutMemory | km/km_coredump.c:73-78 | for every machine with memory to dump, a dump that reports success and is not complete, as the file ends after the notes |
| VcpuPool.AllIdle | km/km_cpu_init.c:470-479 | the idle list holds all vcpus if and only if none is live |
| VcpuPool.WakeKeeps | km/km_cpu_init.c:282-304 | taking the head of the idle list keeps the pool well formed |
| VcpuPool.ParkKeeps | km/km_cpu_init.c:470-475 | parking a live vcpu keeps the pool well formed |
| VcpuPool.Pool.Get | km/km_cpu_init.c:282-328 | when it fails, which vcpu it returns, and the whole new pool |
| VcpuPool.Pool.Put | km/km_cpu_init.c:470-479 | the whole new pool; shutdown is signalled if and only if no vcpu is live any more |
| VcpuPool.Pool.RunThread | km/km_init_guest.c:235-257 | a vcpu runs unless it needs a thread that cannot be created |
| VcpuPool.Pool.Clone | km/km_init_guest.c:277-334 | fails exactly for a bad stack, or when exiting or no vcpu with a thread can be had; a clone adds exactly one live vcpu, which runs and has a thread, and changes no other live one; a failed one changes no live vcpu and never signals shutdown |
| VcpuPool.Pool.ApplyAll | km/km_cpu_init.c:369-390 | every live vcpu is visited exactly once, in order, and no other |
| VcpuPool.Pool.FetchByTid | km/km_cpu_init.c:393-401 | the live vcpu with that thread id, except for the last id |
| VcpuPool.TidInverts | km/km_cpu_init.c:393-401 | lookup inverts thread ids if and only if the vcpu is not the last one |
| VcpuPool.Run | km/km_cpu_init.c:282-479 | the pool stays a dense prefix, with an exact idle list and run count, over every run |
| ForkHandshake.StepKeeps | km/km_fork.c:248-425 | every step of every thread keeps the invariant |
| ForkHandshake.RunKeeps | km/km_fork.c:248-425 | over every interleaving: mutual exclusion, at most one open request, the main thread told of exactly the parked ones, one answer for each accepted request, in order, found in the caller's hc_ret, and the counter equal to the successful forks |
| ForkHandshake.AwakeKept | km/km_fork.c:250-258 | a step leaves waiters that nobody will signal if and only if it is a failed reading of registers with nobody else woken |
| ForkHandshake.RunAwake | km/km_fork.c:248-421 | over every run no waiter is ever forgotten if and only if no step is such a failure |
| ForkHandshake.WaiterForgotten | km/km_fork.c:255-258 | a run after which a thread waits with no fork open and only a new request can happen |
| ForkHandshake.SavedStays | km/km_fork.c:248-307 | an open request is not overwritten before it is answered |
| ForkHandshake.ForkIsFor | km/km_fork.c:334-425 | a fork uses the request of a parked thread as that thread made it, and answers that thread, which finds the answer in hc_ret |
| Breakpoints.InsertKeeps | km/gdb_kvm_x86_64.c:123-164 | planting a breakpoint keeps memory the original under the breakpoints |
| Breakpoints.RemoveKeeps | km/gdb_kvm_x86_64.c:166-197 | a trap is there to remove, and removing it keeps memory the original under the rest |
| Breakpoints.Dr7Fields | km/gdb_kvm_x86_64.c:200-248 | DR7 enables exactly the slots in use; its condition and length fields hold each one's own, with the bits that the length codes of the two slots below spill into them, for every byte that may stand past the table of length codes |
| Breakpoints.SlotReliable | km/gdb_kvm_x86_64.c:209-234 | a slot's condition reads back for every such byte if and only if it is an access watch or the breakpoints in the two slots below have at most 8 bytes |
| Breakpoints.SlotStops | km/gdb_kvm_x86_64.c:203-232 | a slot stops on what was asked, by the condition codes of the Intel SDM, for every such byte, if and only if it is no read watch and its condition reads back; a read watch whose condition reads back stops on port accesses only |
| Breakpoints.LengthDecodes | km/gdb_kvm_x86_64.c:209-234 | a slot's length reads back for every such byte if and only if it is 1, 2, 4 or 8 and it is 4 or the breakpoint in the slot below has at most 8 bytes |
| Breakpoints.Dr7Decodes | km/gdb_kvm_x86_64.c:200-248 | DR7 decodes into the list for every such byte if and only if every slot that is no access watch has only breakpoints of at most 8 bytes in the two slots below |
| Breakpoints.HwBreakFound | km/km_gdb_stub.c:803-827 | a hardware stop is attributed to the lowest slot that fired, with its address and its kind and what spilled into it |
| Breakpoints.HwBreakIs | km/km_gdb_stub.c:803-827 | the kind is that of the breakpoint in that place for every such byte if and only if that slot is an access watch or the breakpoints in the two slots below have at most 8 bytes |
| Breakpoints.LongWatchMisread | km/gdb_kvm_x86_64.c:234 | two write watches, of 4 bytes and then of 16, after which a stop at the first is reported as an access watch |
| Breakpoints.Stub.FindSw | km/gdb_kvm_x86_64.c:260-295 | the first software breakpoint at the address |
| Breakpoints.Stub.AddSw | km/gdb_kvm_x86_64.c:625-640 | keeps the overlay through every failure; when it succeeds and what the list becomes |
| Breakpoints.Stub.RemoveSw | km/gdb_kvm_x86_64.c:646-663 | keeps the overlay through every failure; when it succeeds and what the list becomes |
| Breakpoints.Stub.AddHw | km/gdb_kvm_x86_64.c:625-640 | at most four, distinct addresses, count equal to the list; a breakpoint of any kind at the address counts as set |
| Breakpoints.Stub.RemoveHw | km/gdb_kvm_x86_64.c:646-663 | removes the one at the address, count equal to the list |
| Breakpoints.Stub.ReadMemory | km/gdb_kvm_x86_64.c:414-463 | the debugger always reads original memory |
| Breakpoints.Stub.RemoveAll | km/gdb_kvm_x86_64.c:671-702 | exactly the breakpoints that cannot be reached remain; success restores memory exactly, and it succeeds when all can be reached and updated |
| Breakpoints.Stub.UpdateVcpuDebug | km/gdb_kvm_x86_64.c:200-248 | the loop writes the addresses and DR7 of the list, for every byte that may stand past the table |
| Breakpoints.Run | km/gdb_kvm_x86_64.c:625-702 | the overlay and the hardware limits hold over every run of adds, removes and removals of all, with any failures; memory is the original whenever no software breakpoint is left |
| GdbEscape.UnescapeInverts | km/km_gdb_stub.c:638-655 | the receiver recovers the data |
| GdbEscape.FlipIs | km/km_gdb_stub.c:638-655 | an escaped byte is the byte with 0x20 flipped |
| GdbEscape.EscapeClean | km/km_gdb_stub.c:638-655 | no packet delimiter and no run-length marker remains; the length grows by the counted characters |
| GdbEscape.CharCounter | km/km_gdb_stub.c:1269-1284 | the number of special characters |
| GdbEscape.AddEscapes | km/km_gdb_stub.c:638-655 | the in-place loop succeeds if and only if the buffer is large enough, and then computes the escape |
| GdbEscape.EscapeCounted | km/km_gdb_stub.c:1306-1319 | with the counted size it always succeeds and fills the buffer |
| GdbEscape.BinaryEscapeAdd | km/km_gdb_stub.c:2119-2146 | the escape of the longest prefix of the input that fits |
| GdbPacket.FrameReceived | km/km_gdb_stub.c:469-542 | a frame after noise and aborted starts is accepted or refused by its checksum |
| GdbPacket.GoodFrameReceived | km/km_gdb_stub.c:469-542 | after any number of bad frames a good one is received: one '-' each, then '+', the rest of the input untouched |
| GdbPacket.ThirdCharacter | km/km_gdb_stub.c:531-537 | what decides whether a sequence id is assumed, and that the buffer holds the payload |
| GdbPacket.ReceiveInvertsSend | km/km_gdb_stub.c:469-566 | what is sent is received exactly; returned from the start of the buffer if and only if no ':' stands third there |
| GdbPacket.ChecksumAdds | km/km_gdb_stub.c:561-562 | the checksum of a text is the sum of its characters modulo 256, part by part |
| GdbPacket.ReplyIs | km/km_gdb_stub.c:548-567 | the reply OK on the line, as the protocol's manual prints it |
| GdbPacket.StaleColon | km/km_gdb_stub.c:531-537 | two packets of which the second is returned wrongly |
| GdbPacket.SendPacketNoAck | km/km_gdb_stub.c:548-567 | the loop sends the payload between its delimiters with its checksum |
| GdbPacket.Connection.FillBuffer | km/km_gdb_stub.c:485-504 | the filling loop with its restarts, its checksum and its limit |
| GdbPacket.Connection.RecvPacket | km/km_gdb_stub.c:469-542 | the receiver's loops compute the specified outcome and replies for every input |
| Decoder.PrefixesSkipped | km/km_decode.c:152-208 | any number of prefixes is consumed, up to the first other byte |
| Decoder.HeadDecoded | km/km_decode.c:152-230 | prefixes and REX of an encoding are recognised |
| Decoder.TailDecoded | km/km_decode.c:258-337 | ModRM, SIB and displacement of an encoding are read as written |
| Decoder.WhatIsFound | km/km_decode.c:152-337 | whenever an address is found, an encoding stands in memory whose address it is |
| Decoder.FindsExactly | km/km_decode.c:152-337 | an address is found if and only if an encoding the decoder can read stands there with it |
| Decoder.DecodesAddress | km/km_decode.c:258-337 | the decoder inverts the encoder: base plus index times 2^scale plus two's complement displacement, modulo 2^64, by the fields of the encoding, and what it gives for the special forms |
| Decoder.SignExtended | km/km_decode.c:277-311 | sign extension: in the range of its width, and congruent to the little-endian value of the bytes |
| Decoder.ScaleIs | km/km_decode.c:332 | the scale field stands for a power of two |
| Decoder.OpcodesCovered | km/km_decode.c:734-821 | the table of opcodes holds those that have a ModRM byte, except the groups, LEA and the floating-point ones |
| Decoder.DecodesExactly | km/km_decode.c:314-337 | the result is the effective address if and only if the form is not special, or RBP or R13 holds the next address plus the displacement, or the displacement, modulo 2^64 |
| Decoder.RipRelativeMissed | km/km_decode.c:314-326 | a RIP-relative operand that is decoded wrongly |
| Decoder.GroupDecoded | km/km_decode.c:152-208 | without REX every instruction with a group opcode is decoded as if it began at its ModRM byte; right if and only if what stands there is read as the same address |
| Decoder.GroupAfterRex | km/km_decode.c:806-861 | with REX none of them is interpreted |
| Decoder.GroupOpcodeMissed | km/km_decode.c:170-198 | an instruction whose opcode is taken for a prefix and whose address is missed |
| Decoder.Instruction.LegacyPrefixes | km/km_decode.c:152-208 | the prefix loop ends for all memory contents, at the specified byte |
| Decoder.Instruction.RexPrefix | km/km_decode.c:210-230 | the two REX bits that matter |
| Decoder.Instruction.ReadDisplacement | km/km_decode.c:277-311 | the two's complement value of the bytes that stand there, or the first byte that is not mapped |
| Decoder.Instruction.FindModrmFault | km/km_decode.c:258-337 | the specified outcome for every memory and every register file |
| Decoder.Instruction.Opcode | km/km_decode.c:780-821 | the specified outcome for one-byte opcodes |
| Decoder.DecodeFault | km/km_decode.c:1345-1373 | the byte-by-byte decoder computes the specified outcome for every memory |

## Left out

- WalkSound: says nothing of the hidden last 2MB of the top zone, which km_mem_tbrk can mark present although no region backs them (km/km_mem.c:655-660).
- Brk: asks for a break of 0 or at least 2MB. On a smaller one the source aborts, except where the zones coincide (512GB of memory, low position): there it goes on for any break above 1, below the first region.
- Tbrk: asks for a break other than the start of the top zone. On that one the source aborts when it reaches region 0, unless the host refuses a region on the way down: then it returns -ENOMEM first (km/km_mem.c:893-919).
- SharingSurvives: is about regular files and hosts whose opens and dups succeed; the recovery of pipes, sockets, event and epoll descriptors is not modelled.
- RecoverOpenFiles: walks the saved table in order instead of the notes; the file notes themselves are not encoded.
- RoundTrip: takes the restored entries in order; names, socket options and file operations that the new process looks up again are not part of an entry.
- ReadsBack: memory above the stack is not part of the model, so reading ends with the stack.
- DumpCore: the contents of the notes are one opaque buffer, file positions are unbounded, and seeks succeed.
- DelGuestFd: a record outside the table is not modelled; the result says whether the source looks at one.
- ForkHandshake.RunKeeps: follows the parent; the set-up of the child's virtual machine and the event that ends the machine are not modelled.
- Decode: keeps apart the outcomes for which the source returns 0, and takes an unmapped byte at address 0 for unmapped, where the source reads on.
- DecodeFault: two-byte, three-byte, VEX and XOP opcodes and the string instructions are left to other tables, as is the address-size prefix.
- NumberIs: conversions follow the C library's clamping to 64 bits; locale digits are not modelled.
- The KKM driver, mprotect of guest memory, and the contents of the vdso and km_guest pages: other branches of the memory manager without a property of their own here.
- Contents of socket records, and events mirrored from epoll: they change no group, sharing or link.
- km_vcpu_restore, pausing and resuming of vcpus, and signals: the other half of each protocol is elsewhere.
- km_hcalls.c and the system calls that only pass arguments on: one branch each.
- Packets of the debugger above the framing, and register packets: small and easy next to the rest.
- Locks are not modelled except in the fork handshake; operations under one lock are atomic steps.
