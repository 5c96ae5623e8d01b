# A verified model of a three-terminal teaching kernel

This project models, in Dafny, the parts of a small x86 kernel and of its user programs whose
behaviour is hard to see from one function: the process and scheduler state machine, the virtual
screens, the read-only file system, the streaming `grep`, the blink list of `fish`, the keyboard line
buffers, and the memory and number primitives. `dafny verify dfyconfig.toml` checks all of it.

Each stateful component has two layers. Its atomic steps are functions on a value that holds the
component's globals; the lemmas, most of them about whole runs, are about those functions. A class or
a method over arrays then makes the same changes step by step, with the loops of the source, and is
proved to compute exactly the function.

| module | models |
|---|---|
| `Bytes`, `Sequences` | machine words, NUL-terminated strings, duplicate-free sequences |
| `FileSystem`, `Directory` | the image, `read_data`, directory lookup and enumeration |
| `Arguments` | command-name parsing in `execute`, `getargs`, `strncpy` |
| `Process`, `ProcessInvariant`, `ProcessRuns`, `ProcessCalls` | the process machine, its invariant, theorems about its runs, what each call does for its caller |
| `Kernel` | the kernel tables changed in place by the system calls and the scheduler |
| `TextConsole`, `Screens`, `VideoMemory` | one console and its text, three virtual screens, the video pages |
| `Grep` | `do_one_file` against grep on the whole file |
| `Blink` | the blink list, its cell pool and its timer |
| `Keyboard` | scan codes and the three line buffers |
| `Machine` | processes, screens and keyboard as one machine |
| `MemoryOps`, `NumberText` | `memcpy`, `memset`, `memmove`, `itoa`, `strrev`, `%#x` |

## How the machine is modelled

`execute`, `halt` and `context_switch` are atomic steps: the first two disable interrupts, the last
is called from an interrupt handler. `open`, `close` and `read` of a file or directory are atomic as
well: a timer interrupt inside them switches away and comes back with the same `schedule_index`, and a
key interrupt touches only keyboard and screens, which they do not use. `keyboard_read` is not atomic:
it tests `visible_screen` in its wait and reads it again behind it, with interrupts on, so `Machine`
has its wait and the rest of it as two steps with any interrupts between. A pid or pointer of -1 is the
integer -1; arithmetic the source does in 32 or 16 bits is written with its wrap-around. A context
switch onto a terminal without a process makes one attempt to start a shell there. If that attempt
fails the source repeats it forever with interrupts off; the model goes on to any further step, so it
has every run of the source and more.

`Process`, `Screens` and `Keyboard` each model their part with its own copy of `schedule_index` or
`visible_screen`; `Machine` puts the three together, shows that the copies always agree, and states
what only the whole can: whose screen a process's output reaches, when a terminal is what it would be
by itself, which line a process reads, and when the screen shows the line being typed. `putc` and a keyboard interrupt are atomic there, so keys fall
between the characters of a write.

The video state at boot is what `entry`'s `clear`, `init_paging` and `init_scheduler` leave. Nothing in
the kernel calls `init_vid`, so the backing pages hold whatever video memory held; the theorems about
terminals that start blank are stated for a machine on which it has run.

## Where the source does not do what one would expect

Each of these is stated exactly, with the condition under which the expected property holds.

- `read_data` shortens the block range at the end of the file but not the byte count, so the count it
  returns is clamped if and only if the request ends in the file or starts past its last block
  (`FileSystem.ReadClampsExactlyWhen`; `FileSystem.ReadOvershoots` is a request of 1024 bytes on a file
  of 100 that returns 1024).
- `switch_vid` leaves the 0xb8000 alias where it was. A switch keeps the alias right exactly when the
  scheduled terminal is neither the old nor the new visible one (`Screens.SwitchVidCoherence`). With a
  wrong alias `putc` is right, whatever the pages hold, if and only if the character is NUL, or it does
  not scroll and is a break or goes to a hidden terminal (`Screens.PutcRightExactlyWhen`). Otherwise a
  character for the visible terminal only moves the cursor, and a scroll of a hidden terminal copies
  the display (`Screens.PutcUnsafe`).
- `switch_vid(-1)` is accepted. The switch after it keeps every screen if and only if the alias page
  equals the display (`Screens.SwitchVidFromNowhere`). No caller in the kernel passes -1.
- `clear_screen` blanks the terminal behind the alias, which is the scheduled one if and only if the
  alias is right (`Screens.ClearRightExactlyWhen`). Nothing in the kernel calls it.
- The keyboard interrupt tests all three counters but raises the visible terminal's flag. While a
  hidden terminal has 127 characters pending, any scan code but a screen switch, even a key release,
  ends the wait of a reader on the visible one, which then gets a line that was not entered, perhaps
  an empty one
  (`Keyboard.FullHiddenBufferEndsWait`; `Keyboard.EmptyLineRead` reaches such a state from boot).
- `keyboard_read` tests `visible_screen` in its wait and uses it again afterwards. A process gets the
  line of the terminal visible then: its own if and only if no screen switch has left the display away
  from its terminal in between (`Machine.ReadsOwnLineExactlyWhen`). With Alt-F2 in between a process of
  terminal 0 gets terminal 1's line, and its own flag stays up (`Machine.SwitchDuringRead`).
- `keyboard_read` clears the buffer before it resets the counter. An interrupt between the two leaves
  the buffer in order if and only if it types nothing; otherwise the character stays in the buffer
  uncounted (`Keyboard.KeyBeforeReset`).
- A terminal is what its own output, keys and reads make of it, whatever the others do, as long as no
  screen switch takes the display to or from the terminal scheduled at that moment
  (`Machine.TerminalAlone`, `Machine.SameHistorySameTerminal`). After such a switch, until the next timer
  switch, a scroll can bring another terminal's text onto its screen.
- Backspace over a pending newline moves the cursor to the last column of the row above, so the screen
  is right if and only if the newline was typed in that column (`TextConsole.EraseBreakExactlyWhen`;
  `TextConsole.EraseBreakFails` is a newline and a backspace on a cleared screen).
  Ctrl-L wipes a pending line from the screen but not from the buffer (`Machine.WipeHidesLine`).
- Halting the first process of a terminal maps the kernel's own 4MB page at the program address; the
  caller's mapping comes back if and only if the caller is a process or already had that mapping
  (`ProcessRuns.HaltReturnsToCaller`).
- A blink node at location 0 is linked yet looks free. Over any sequence of operations the list stays
  well formed throughout if and only if no node is added at location 0 while a cell is free
  (`Blink.AlwaysOkExactlyWhen`); a second such add makes the head its own successor and cuts off the
  list (`Blink.ZeroLocationMakesCycle`).
- Blink lengths of 0 or above 32768 last one tick (`Blink.BlinksPeriodically` covers all lengths).
- A line buffer stays terminated by one more character if and only if fewer than 127 are pending
  (`Keyboard.AppendHolds`). Caps lock under shift, and a second shift, are typed like characters
  (`Keyboard.DecodeByKey`).
- `grep` takes for granted that a read fills its request up to the end of the file and no further. This
  kernel's `file_read` does so if and only if the request ends in the file, or starts at its end and
  that is the end of a block (`FileSystem.FillsExactlyWhen`); otherwise it goes on past the end.
- `grep` finds nothing for an empty pattern or one whose first byte is above 127
  (`Grep.EntriesAreGrep`).

## Model

| member | source | states |
|---|---|---|
| `ProcessInvariant.StepKeeps` | student-distrib/syscall.c:31-282 | every step, successful or failed, keeps the invariant: three duplicate-free process stacks threaded by parent pid, saved parent data equal to what the stack says, every used slot on the stack of its screen, TSS and exec page those of the running process, descriptor tables in order |
| `ProcessInvariant.LaunchKeeps` | student-distrib/syscall.c:225-247 | a launch pushes the new slot on the scheduled terminal's stack and disturbs no other frame |
| `ProcessInvariant.HaltKeeps` | student-distrib/syscall.c:147-167 | a halt pops exactly the running process |
| `ProcessInvariant.RotateKeeps` | student-distrib/scheduler.c:43-94 | the next of the three terminals, modulo 3, is scheduled; saving and restoring esp0 keeps every stack and hands the CPU to that terminal's top process |
| `ProcessInvariant.OnlyOnTop` | student-distrib/syscall.c:229-239 | the running process occurs nowhere else on any terminal's chain |
| `ProcessInvariant.OpenKeeps` | student-distrib/syscall.c:31-46 | open keeps the invariant on any image with types 0 to 2 |
| `ProcessInvariant.FdsKeep` | student-distrib/filesys.c:210-238 | changing the running process's descriptors disturbs no other process and no chain |
| `ProcessInvariant.BootKeeps` | student-distrib/scheduler.c:114-118 | booting a shell on an empty terminal keeps the invariant, also if it fails |
| `ProcessInvariant.BootHolds` | student-distrib/scheduler.c:16-31 | the boot state satisfies the invariant with three empty stacks |
| `ProcessInvariant.CurFds` | student-distrib/syscall.c:235-239 | a running process uses its own table, has the console on 0 and 1 only, and its parent is a slot or none |
| `Process.AvailPcb` | student-distrib/process.c:37-46 | the least free slot, -1 if and only if all eight are used |
| `Process.AvailFd` | student-distrib/filesys.c:194-203 | the least free descriptor in 2..7, -1 if and only if all are open |
| `Process.MagicExactly` | student-distrib/syscall.c:220-222 | the four bytes tested against 0x7f 0x45 0x4c 0x46 are the file's first, or the old buffer's if the first block index is bad |
| `Process.LaunchesExactlyWhen` | student-distrib/syscall.c:202-227 | execute fails if and only if no entry has the command's name, those four bytes differ from the magic number, or all slots are used; otherwise it takes the least free slot |
| `ProcessRuns.Reachable` | student-distrib/scheduler.c:16-31 | the invariant holds after any sequence of events from boot |
| `ProcessRuns.EveryReachableState` | student-distrib/syscall.c:111-282 | in every reachable state chains plus free slots make eight, each chain ends at -1 and holds exactly its terminal's processes, and TSS and page belong to the running process |
| `ProcessRuns.ChainWalksStack` | student-distrib/process.h:6-17 | following parent_pid k times from the n-th process lands k places lower, and at -1 at the bottom |
| `ProcessRuns.ChainsPartitionSlots` | student-distrib/syscall.c:216-239 | the three parent_pid chains are finite, acyclic and disjoint, visit exactly the used slots with that screen_idx, and with the free slots partition all eight |
| `ProcessRuns.RunningOwnsStackAndFrame` | student-distrib/process.c:53-66 | tss.esp0 and pdt[EXEC] are the running process's; live processes have disjoint PCBs, kernel stacks and 4MB frames, away from the boot stacks |
| `ProcessRuns.ThreeSwitchesGoRound` | student-distrib/scheduler.c:39-107 | the first of three timer switches over live terminals goes to the next terminal, and all three restore the whole state |
| `ProcessRuns.StepTouchesOnlyRunning` | student-distrib/syscall.c:31-282 | no step changes a used PCB other than the running process's, and execute and switches not even that |
| `ProcessRuns.StepMovesTop` | student-distrib/syscall.c:229-230 | a step changes a terminal's chain only at its top, by the counted amount |
| `ProcessRuns.NestedRunKeepsBase` | student-distrib/syscall.c:147-282 | over any stretch in which a terminal's executes and halts balance, with arbitrary steps of the others, the processes under the starting one keep their whole PCBs |
| `ProcessRuns.HaltReturnsToCaller` | student-distrib/syscall.c:147-167 | last in, first out: the matching halt restores the caller's pid, descriptor table, kernel stack top, page and whole PCB, and says exactly when the page is restored |
| `ProcessRuns.HaltFreesDescriptors` | student-distrib/syscall.c:160-165 | a halted process leaves 2..7 closed with no operation table, and its slot free |
| `ProcessRuns.OpenTakesLeastFree` | student-distrib/syscall.c:31-46 | open fails if and only if the name is absent or 2..7 are full, else takes the least free descriptor, never on the keyboard driver, and changes no other |
| `ProcessRuns.ReadNextPiece` | student-distrib/filesys.c:245-253 | a non-empty read inside the file delivers the next bytes and advances by their number |
| `ProcessRuns.StepOnDescriptor` | student-distrib/syscall.c:73-104 | an open descriptor changes only by its own process's reads of it |
| `ProcessRuns.StepTakesPiece` | student-distrib/filesys.c:245-253 | one step takes what it asks for from the front of what lies ahead of the descriptor |
| `ProcessRuns.ReadsConcatenate` | student-distrib/filesys.c:245-253 | reads through one descriptor are consecutive pieces of the file whatever other descriptors and processes do in between |
| `ProcessRuns.ReadsDeliverPrefix` | student-distrib/filesys.c:210-253 | from a fresh open, the pieces concatenate to the file's prefix |
| `ProcessRuns.ListsInOrder` | student-distrib/filesys.c:306-325 | reads through one directory descriptor enumerate the directory from where it stood, whatever other descriptors and processes do in between |
| `ProcessRuns.ListsWholeDirectory` | student-distrib/filesys.c:306-325 | from a fresh open the k-th read delivers the k-th entry's name, which looks up to that entry, and nothing behind the last one |
| `ProcessRuns.ArgumentsReachProcess` | student-distrib/syscall.c:202-241 | execute looks up exactly the word of a command, and for as long as the process lives, through any run, its user_buf yields exactly the arguments |
| `ProcessCalls.SwitchGoesToNext` | student-distrib/scheduler.c:43-60 | a timer switch schedules terminal (t + 1) modulo 3, and no system call moves the schedule |
| `ProcessCalls.RoundRobin` | student-distrib/scheduler.c:43-60 | over any run with k switches the scheduled terminal is the starting one plus k, modulo 3 |
| `ProcessCalls.ThreeSwitchesVisitAll` | student-distrib/scheduler.c:43-60 | in any three consecutive switches each terminal is scheduled exactly once |
| `ProcessCalls.SwitchBootsShell` | student-distrib/scheduler.c:109-120 | on a terminal without a process a switch starts the program named shell if it can be executed; elsewhere it resumes the process there |
| `ProcessCalls.FailedExecuteChangesNothing` | student-distrib/syscall.c:202-227 | a failed execute leaves the whole state as it was |
| `ProcessCalls.FreshProcess` | student-distrib/syscall.c:228-247 | a new process has the console on 0 and 1, nothing else open, its caller as parent and its command in user_buf; no other process or terminal changes |
| `ProcessCalls.OpenBindsDriver` | student-distrib/filesys.c:61-71 | open binds the RTC, directory or file driver exactly as the entry's kind is 0, 1 or 2, at position 0, with the entry's inode for a file |
| `ProcessCalls.RtcDeliversNothing` | student-distrib/_rtc.c:35-88 | from a fresh open of a kind 0 entry, reads deliver no byte and leave the descriptor at position 0 over any run that keeps it open |
| `ProcessCalls.CloseFreesDescriptor` | student-distrib/syscall.c:94-104 | close frees exactly an open descriptor in 2..7 and changes no other descriptor, process or terminal |
| `ProcessCalls.ReadableExactly` | student-distrib/syscall.c:73-87 | a process can read its console and every open descriptor from 2 on, and no other |
| `ProcessCalls.ReadChangesPosition` | student-distrib/syscall.c:73-87 | a failed read changes nothing; any other changes at most the position of the descriptor read |
| `ProcessCalls.FileReadDelivers` | student-distrib/filesys.c:245-253 | a read of n bytes from inside a file gives n bytes and advances by n, and they start with the file's bytes up to its end |
| `ProcessCalls.ReadStopsAtEndExactlyWhen` | student-distrib/filesys.c:245-253 | a descriptor's read delivers the file's bytes up to its end and stops there if and only if the request ends in the file, or starts at its end at a block boundary |
| `Kernel.ProcessInit` | student-distrib/process.c:14-21 | every slot becomes free and is otherwise unchanged |
| `Kernel.InitScheduler` | student-distrib/scheduler.c:16-31 | each terminal starts without a process, on its own boot stack |
| `Kernel.Kernel.constructor` | student-distrib/scheduler.c:16-31 | the tables hold the boot state and the class invariant |
| `Kernel.Kernel.GetAvailFd` | student-distrib/filesys.c:194-203 | the scanning loop returns the least free descriptor |
| `Kernel.Kernel.InitFd` | student-distrib/filesys.c:339-357 | the current table is exactly a console on 0 and 1 and six clear entries |
| `Kernel.Kernel.Open` | student-distrib/syscall.c:31-46 | the tables change exactly by the open step; the result is its descriptor |
| `Kernel.Kernel.Close` | student-distrib/syscall.c:94-104 | the close step; 0 exactly for an open descriptor in 2..7 |
| `Kernel.Kernel.CloseEvery` | student-distrib/syscall.c:160-162 | the loop closes 2..7 and leaves 0 and 1 |
| `Kernel.Kernel.GetAvailPcb` | student-distrib/process.c:37-46 | the scanning loop returns the least free slot |
| `Kernel.Kernel.MapPageExec` | student-distrib/paging.c:60-72 | pdt[EXEC] maps the frame of the given pid, wrapping for -1 |
| `Kernel.Kernel.Halt` | student-distrib/syscall.c:147-167 | in-place halt equals the halt step, keeps the invariant and pops the stack |
| `Kernel.Kernel.HaltException` | student-distrib/syscall.c:111-127 | its different order of assignments ends in the same state as halt |
| `Kernel.Kernel.CheckMagic` | student-distrib/syscall.c:220-222 | accepts exactly if the four bytes, read over what the buffer held, are 0x7f 0x45 0x4c 0x46 |
| `Kernel.Kernel.Enter` | student-distrib/syscall.c:228-236 | the slot becomes the terminal's process above its caller, and no other PCB or terminal changes |
| `Kernel.Kernel.Claim` | student-distrib/syscall.c:228-247 | the assignments of execute add up to the launch step |
| `Kernel.Kernel.Execute` | student-distrib/syscall.c:186-247 | 0 if and only if the name exists, its file starts with the magic number and a slot is free; success pushes a process, failure leaves all tables as they were |
| `Kernel.Kernel.SaveAndRestore` | student-distrib/scheduler.c:43-60 | esp0 is saved, the next terminal modulo 3 scheduled and its esp0 restored |
| `Kernel.Kernel.ContextSwitch` | student-distrib/scheduler.c:39-107 | in-place switch to the next terminal modulo 3 equals the switch step, with a shell booted on an empty terminal |
| `Kernel.Kernel.Read` | student-distrib/syscall.c:73-87 | -1 and no change exactly when fd is out of range, closed or 1 or there is no buffer; else the driver's result, its bytes in the buffer, the position advanced and the keyboard's line taken |
| `Kernel.DriverRead` | student-distrib/filesys.c:245-325 | file bytes, a name, the keyboard's pending line or nothing in the buffer, the rest of it untouched, and the descriptor and keyboard after the read |
| `FileSystem.FirstBad` | student-distrib/filesys.c:164-181 | the first block index out of the image in a range |
| `FileSystem.BlockStep` | student-distrib/filesys.c:170-182 | appending the rest of one good block extends the file prefix read so far |
| `FileSystem.BlockLoop` | student-distrib/filesys.c:170-183 | the loop copies block after block up to the last one or the first bad one, and leaves the buffer behind it alone |
| `FileSystem.CopyBlocks` | student-distrib/filesys.c:164-183 | from the request's first block on, how many bytes are copied and where the rest of the last block starts |
| `FileSystem.ReadData` | student-distrib/filesys.c:146-187 | -1 for a bad inode; else the returned count and the buffer are the closed-form bytes followed by the old buffer, for every request the source can serve |
| `FileSystem.ReadInRange` | student-distrib/filesys.c:146-187 | a non-empty request inside the file over good blocks is exactly that slice of the concatenated blocks |
| `FileSystem.ReadUpToBadBlock` | student-distrib/filesys.c:164-181 | with a bad block index among the file's blocks that a request reaches, exactly the bytes before that block |
| `FileSystem.ReadPastEnd` | student-distrib/filesys.c:161-186 | a request past the end of the file gets the file's blocks to the end of the last one and then the memory behind it |
| `FileSystem.ReadBeyondFile` | student-distrib/filesys.c:161-169 | a request that starts behind the last block gets nothing |
| `FileSystem.BadBlockExactly` | student-distrib/filesys.c:164-181 | a block index is bad exactly if the image has no such block |
| `FileSystem.ReadClampsExactlyWhen` | student-distrib/filesys.c:161-186 | the clamped end-of-file count holds if and only if the request ends in the file or starts past its last block |
| `FileSystem.ReadOvershoots` | student-distrib/filesys.c:161-186 | a request of 1024 bytes on a 100-byte file returns 1024 |
| `FileSystem.FillsExactlyWhen` | student-distrib/filesys.c:161-186 | a read at a position in or at the end of a file delivers exactly the file's bytes if and only if the request ends in the file, or starts at its end at a block boundary |
| `Directory.Lookup` | student-distrib/filesys.c:89-121 | the first entry with the name, -1 if and only if there is none |
| `Directory.NameMatches` | student-distrib/filesys.c:100-112 | the comparison loop decides string equality, full 32-byte names included, without reading past the terminator |
| `Directory.ReadDentryByName` | student-distrib/filesys.c:89-121 | the search loop computes the lookup |
| `Directory.DirectoryRead` | student-distrib/filesys.c:306-325 | delivers the next name, its length and the next position, or 0 and no change |
| `Directory.EnumerateInOrder` | student-distrib/filesys.c:306-325 | successive reads deliver the entries in order and then nothing, forever |
| `Directory.EnumerationInvertsLookup` | student-distrib/filesys.c:89-139 | every enumerated name looks up to its own entry, and the first empty answer comes exactly after the last entry |
| `Arguments.ParseName` | student-distrib/syscall.c:202-214 | the buffer holds exactly the first word, terminated |
| `Arguments.NameEndsAtBlank` | student-distrib/syscall.c:202-214 | the name is everything before the first space or newline |
| `Arguments.StrNCpy` | student-distrib/lib.c:640-651 | copies the string cut or zero-padded to n bytes and nothing else |
| `Arguments.RetrieveArgs` | student-distrib/syscall.c:295-322 | the scanning loops extract exactly the arguments |
| `Arguments.GetArgs` | student-distrib/syscall.c:290-331 | 0 if and only if there is a buffer, a size and a non-empty argument string, which is then delivered; otherwise the buffer is untouched |
| `Arguments.SplitJoined` | student-distrib/syscall.c:202-214 | name and arguments of word + spaces + rest are the word and the rest |
| `Arguments.JoinSplit` | student-distrib/syscall.c:290-331 | every newline-free command that starts with a word is its name, some spaces and its arguments |
| `Arguments.PaddedRoundTrip` | student-distrib/syscall.c:241 | a command shorter than user_buf comes back whole |
| `TextConsole.PutCharMovesOn` | student-distrib/lib.c:239-267 | where the cursor goes and what every cell shows after a character or a break, with the screen one row higher if that was below the last row |
| `TextConsole.DeleteCharMovesBack` | student-distrib/lib.c:330-366 | backspace moves the cursor back one cell, puts a space there and changes no other character; nothing in the top left corner |
| `TextConsole.RowsAppend` | student-distrib/lib.c:242-259 | how one character changes the lines of a text cut at 80 columns |
| `TextConsole.PutCharShows` | student-distrib/lib.c:239-267 | a character keeps screen and cursor showing the last 25 rows |
| `TextConsole.NewRowShows` | student-distrib/lib.c:180-212 | a new row, scrolling if the screen is full, keeps the last 25 rows on screen |
| `TextConsole.PrintShowsText` | student-distrib/lib.c:165-290 | printing any text on a cleared screen leaves its last 25 rows, wrapped eagerly at 80 columns, cursor at the end |
| `TextConsole.PrintShows` | student-distrib/lib.c:165-290 | the same from any empty console, with NUL or space in its empty cells |
| `TextConsole.EraseShows` | student-distrib/lib.c:330-366 | backspace takes the last printing character of a text off the screen, across a wrap too |
| `TextConsole.EraseBreakExactlyWhen` | student-distrib/lib.c:351-364 | backspace over a break restores the screen if and only if the break was typed in the last column |
| `TextConsole.EraseBreakFails` | student-distrib/lib.c:351-364 | newline and backspace on a cleared screen leave the cursor in column 79 |
| `TextConsole.RowsGrow` | student-distrib/lib.c:242-259 | how many rows a line of printing characters adds to a text and where it ends |
| `TextConsole.TypeShown` | student-distrib/lib.c:272-290 | one more character of a line of at most 127 keeps text and line on screen, the line's start included |
| `TextConsole.EraseShown` | student-distrib/lib.c:330-366 | taking back a character of the line keeps text and shorter line on screen |
| `TextConsole.BackspaceUndoesCharacter` | student-distrib/lib.c:330-366 | backspace after a character restores the cursor and blanks the cell, also across a wrap and a scroll |
| `Screens.SwitchVidKeepsScreens` | student-distrib/vidctl.c:55-85 | no target, valid or not, changes any terminal's screen or cursor |
| `Screens.SwitchVidCoherence` | student-distrib/vidctl.c:76-85 | a real switch keeps the alias coherent exactly when the scheduled terminal is neither old nor new visible |
| `Screens.SwitchVidFromNowhere` | student-distrib/vidctl.c:55-85 | after switch_vid(-1), the next switch keeps every screen if and only if the alias page equals the display |
| `Screens.SwitchContextIsCoherent` | student-distrib/scheduler.c:43-67 | a context switch goes to the next terminal modulo 3, changes no screen and always makes the alias coherent |
| `Screens.TicksGoRound` | student-distrib/scheduler.c:43-60 | over any run with k ticks the scheduled terminal is the starting one plus k, modulo 3 |
| `Screens.PutcOnScheduled` | student-distrib/lib.c:239-267 | under the condition on alias, cursor and character, putc acts on the scheduled terminal's screen as on a console, and on no other |
| `Screens.PutcUnsafe` | student-distrib/lib.c:180-267 | all putc does otherwise: the cursor moves, no other terminal changes, the visible screen stays as it was or a hidden one becomes the scrolled display |
| `Screens.PutcRightExactlyWhen` | student-distrib/lib.c:180-267 | putc is right on all page contents if and only if the condition holds |
| `Screens.PutcWrongOnTellingPages` | student-distrib/lib.c:180-267 | page contents on which putc goes wrong whenever the condition fails |
| `Screens.KeysOnVisible` | student-distrib/lib.c:272-306 | echo, backspace and Ctrl-L act on the visible terminal alone, whatever the alias |
| `Screens.ClearEffect` | student-distrib/lib.c:311-324 | clear_screen blanks the terminal behind the alias, homes the scheduled terminal's cursor and changes nothing else |
| `Screens.ClearRightExactlyWhen` | student-distrib/lib.c:311-324 | it clears the scheduled terminal alone, on all page contents, if and only if the alias is coherent |
| `Screens.StepKeepsAlias` | student-distrib/paging.c:113-126 | the alias is always the display or the scheduled terminal's backing page |
| `Screens.StepKeepsGood` | student-distrib/lib.c:220-306 | every event keeps cursors in 80x25, pages at 4000 bytes and the alias on a page of the scheduled terminal |
| `Screens.UndisturbedIsDirect` | student-distrib/vidctl.c:76-85 | from a coherent alias, if no switch takes the display to or from the scheduled terminal, the alias stays coherent and no output goes astray |
| `Screens.RunAppliesOps` | student-distrib/lib.c:239-290 | over any interleaving of output, keys, switches and ticks each terminal's screen and cursor are what the operations aimed at it make of them; through a stale alias one of these may drop a character or bring in the display |
| `Screens.RunShowsText` | student-distrib/lib.c:239-324 | after a clear, each terminal shows the last 25 wrapped rows of exactly its own characters |
| `Screens.BootGood` | student-distrib/vidctl.c:20-35 | the machine boots coherent with an empty terminal 0; after init_vid the others are blank |
| `Screens.ReachableScreens` | student-distrib/kernel.c:39-155 | in every state reached from boot each console is its boot console and what was aimed at it |
| `Screens.EmptyShowsText` | student-distrib/lib.c:239-290 | a terminal that starts empty and only receives characters shows their last 25 wrapped rows |
| `Screens.BootShowsText` | student-distrib/vidctl.c:20-35 | from boot terminal 0, and after init_vid every terminal, shows exactly the text it was given |
| `VideoMemory.ScrollPage` | student-distrib/lib.c:180-234 | the nested loops move every row up and blank the last, writing only the 4000 screen bytes |
| `VideoMemory.ClearPage` | student-distrib/lib.c:295-324 | every cell is blank, the rest of the page untouched |
| `VideoMemory.FillSpaces` | student-distrib/lib.c:27-33 | every cell is a space, the rest of the page untouched |
| `VideoMemory.BlankBuffers` | student-distrib/vidctl.c:20-33 | the loop of init_vid blanks three pages and leaves the bytes behind their screens |
| `VideoMemory.Display.constructor` | student-distrib/kernel.c:39-155 | video memory holds the boot state, well formed and coherent |
| `VideoMemory.Display.InitVid` | student-distrib/vidctl.c:20-35 | the backing pages become blank and terminal 0 visible |
| `VideoMemory.CopyScreen` | student-distrib/vidctl.c:76-77 | exactly the 4000 screen bytes are copied |
| `VideoMemory.PutPage` | student-distrib/lib.c:239-267 | the in-place character output equals the console function |
| `VideoMemory.Display.Putc` | student-distrib/lib.c:239-267 | writes through the alias or the backing page as the screen model says; the bytes behind every screen stay |
| `VideoMemory.Display.PutcKeyboard` | student-distrib/lib.c:272-290 | writes the display and the visible terminal's cursor; the bytes behind every screen stay |
| `VideoMemory.Display.DeleteChar` | student-distrib/lib.c:330-366 | nothing if no character is pending, else the console's backspace on the display; the bytes behind every screen stay |
| `VideoMemory.Display.Clear` | student-distrib/lib.c:295-324 | the page is blank and the cursor home, all else unchanged; the bytes behind every screen stay |
| `VideoMemory.Display.SwitchVid` | student-distrib/vidctl.c:55-98 | the two page copies equal the switch function; 0 exactly for a bad target; the bytes behind every screen stay |
| `VideoMemory.Display.MapScreenBuffer` | student-distrib/paging.c:113-126 | a bad index returns 0 and changes nothing |
| `VideoMemory.Display.ContextSwitch` | student-distrib/scheduler.c:43-67 | schedule_index goes to the next terminal modulo 3 and the alias to its screen |
| `Grep.DoOneFile` | syscalls/ece391grep.c:9-66 | the chunked search prints exactly what grep on the whole file prints, in order and once, for NUL-free files with lines up to 1023 bytes, if byte 1024 of the uninitialised buffer is not a newline |
| `Grep.SearchBuffer` | syscalls/ece391grep.c:28-57 | one pass over the buffer reports its finished lines and carries an unfinished one over, so output plus rest never changes |
| `Grep.CarryOver` | syscalls/ece391grep.c:33-38 | an unfinished line moves intact to the front and no newline appears behind the buffer |
| `Grep.SearchLine` | syscalls/ece391grep.c:42-50 | finds the pattern exactly if it occurs anywhere in the line and starts with an ASCII byte |
| `Grep.PrefixMatches` | syscalls/ece391support.c:35-46 | strncmp is zero exactly if the pattern is a prefix, without leaving the line |
| `Grep.MoveDown` | syscalls/ece391support.c:14-17 | the overlapping strcpy moves the tail intact to the front |
| `Grep.CompleteLine` | syscalls/ece391grep.c:30-52 | a newline in the buffer splits off one line of the whole file |
| `Grep.LinesFitBuffer` | syscalls/ece391grep.c:33-38 | with lines up to 1023 bytes a full buffer always has a newline |
| `Grep.EntriesAreGrep` | syscalls/ece391grep.c:43-44 | the program's test is containment for an ASCII first byte and never succeeds otherwise |
| `Grep.GrepLineByLine` | syscalls/ece391grep.c:42-52 | grep on a file is, line by line, the file name, a colon and the line exactly if the pattern is somewhere in it |
| `Grep.LinesJoin` | syscalls/ece391grep.c:30-32 | the lines of a file are newline-free and joined by newlines they are the file |
| `Blink.TickCycle` | fish/blink.S:64-86 | one tick moves a node one step on in its cycle |
| `Blink.BlinksPeriodically` | fish/blink.S:49-90 | a fresh node is on after n ticks exactly when n modulo its period is below its on time, for all lengths and n |
| `Blink.SyncedStayInStep` | fish/blink.S:267-275 | synchronised nodes have equal status and countdown after any number of ticks |
| `Blink.InsertKeeps` | fish/blink.S:140-162 | adding into a free cell puts the node in front; the list stays well formed if and only if the location is not zero |
| `Blink.ZeroLocationMakesCycle` | fish/fish.c:160-170 | on every pool with a free cell, two adds at location 0 make the head its own successor |
| `Blink.UnlinkKeeps` | fish/blink.S:206-223 | unlinking and zeroing one cell keeps the list acyclic and exactly the non-zero cells |
| `Blink.FullPool` | fish/fish.c:160-170 | no free cell is left exactly when 2000 nodes are linked |
| `Blink.StepRefines` | fish/blink.S:105-300 | each operation on the cells does to the list what it does to a plain sequence of nodes, and keeps it well formed exactly unless it adds at location 0 into a free cell |
| `Blink.AlwaysOkExactlyWhen` | fish/blink.S:105-237 | over every sequence of operations the list stays acyclic and exactly the non-zero cells throughout, if and only if no add has location 0 while a cell is free |
| `Blink.RunRefines` | fish/blink.S:49-300 | such a run refines front insertion, first-match removal, synchronisation and ticks of a plain sequence |
| `Blink.RunFromEmpty` | fish/fish.c:160-175 | from the empty pool every run whose adds are at other locations than 0 is one of these |
| `Blink.NodeAges` | fish/blink.S:49-90 | through any operations that spare it and keep the list well formed, a node stays in its cell and only ages by the ticks |
| `Blink.AddedNodeBlinks` | fish/blink.S:105-162 | an added node keeps its location, characters and lengths and blinks by them from its own start, whatever is removed, synchronised and added at other locations than 0 meanwhile |
| `Blink.SyncedNodesStayInStep` | fish/blink.S:240-300 | two nodes synchronised in the list have equal lengths, status and countdown, each its own characters, through any operations that spare both and keep the list well formed |
| `Blink.BlinkList.Malloc` | fish/fish.c:160-170 | the first free cell, never a linked one, none exactly when the pool is full |
| `Blink.BlinkList.FindHelper` | fish/blink.S:351-379 | the walk ends and returns the first node whose location equals the low 16 bits |
| `Blink.BlinkList.Add` | fish/blink.S:105-184 | -1 and no change if off screen or full, else front insertion |
| `Blink.BlinkList.Remove` | fish/blink.S:187-237 | removes the first match and frees its cell, or -1 and no change |
| `Blink.BlinkList.FindPrevious` | fish/blink.S:206-212 | the predecessor search ends at the link that holds the node |
| `Blink.BlinkList.Sync` | fish/blink.S:240-300 | the first node at the low half takes the timing of the first at the high half, or -1 and no change |
| `Blink.BlinkList.Find` | fish/blink.S:302-349 | a copy of the first match exactly if there is one |
| `Blink.BlinkList.Tick` | fish/blink.S:49-99 | every node ticks exactly once and the list is unchanged |
| `Keyboard.DecodeByKey` | student-distrib/keyboard.c:91-174 | the branch cascade as a table by keys: shift, caps, ctrl, alt, F1..F3, Ctrl-L, backspace; every other press is typed, every other release ignored |
| `Keyboard.AppendHolds` | student-distrib/interrupt_handler.c:42-56 | one more character keeps the buffer terminated if and only if fewer than 127 are pending |
| `Keyboard.KeyStepEdits` | student-distrib/interrupt_handler.c:34-63 | an interrupt appends to or deletes from the visible terminal's text and no other |
| `Keyboard.TypesFromRow` | student-distrib/keyboard.c:189-191 | a typed key appends its character from the row of the key table for the shift and caps-lock state |
| `Keyboard.ModifiersFollowKeys` | student-distrib/keyboard.c:91-137 | what every scan code does to shift, caps lock, control and alt |
| `Keyboard.ModifiersChooseRow` | student-distrib/keyboard.c:91-137 | after a shift press characters come from row 1, after its release from row 0, after caps lock from row 2, under both from row 3 |
| `Keyboard.ReadStepEmpties` | student-distrib/keyboard.c:268-303 | a read empties the visible terminal's text alone |
| `Keyboard.KeyBeforeReset` | student-distrib/keyboard.c:271-303 | an interrupt between clearing the buffer and resetting the counter leaves the buffer in order if and only if it types nothing |
| `Keyboard.BuffersHoldTypedText` | student-distrib/keyboard.c:155-169 | over any keys and reads with at most 127 pending, each buffer is the edited text typed on its terminal followed by zeros, strlen is the counter, and a read delivers the text |
| `Keyboard.FlagsFollowEnter` | student-distrib/interrupt_handler.c:59-61 | over every run a terminal's flag is up exactly when, since its last read, an interrupt that ended with it visible typed a newline or left any terminal's buffer full |
| `Keyboard.FullHiddenBufferEndsWait` | student-distrib/interrupt_handler.c:59-61 | with a hidden buffer full, every scan code but a screen switch raises the visible terminal's flag, and a read delivers what is pending there |
| `Keyboard.EmptyLineRead` | student-distrib/keyboard.c:255-305 | such a state from boot: terminal 1 reads an empty line although nothing was typed on it |
| `Keyboard.KeyStepVisible` | student-distrib/keyboard.c:138-150 | only Alt-F1..F3 move the display |
| `Keyboard.BootHolds` | student-distrib/keyboard.c:65-75 | after keyboard_init every buffer holds the empty text |
| `Keyboard.ReachableBuffers` | student-distrib/keyboard.c:155-169 | in every state reached from boot each buffer holds what was typed on its terminal since its last read, and its flag is up exactly if an interrupt since then raised it |
| `Keyboard.Driver.constructor` | student-distrib/keyboard.c:65-75 | the driver starts in the boot state with empty buffers |
| `Keyboard.Driver.GetScancode` | student-distrib/keyboard.c:91-174 | the driver state changes as decoded, and a key comes out exactly when one is typed |
| `Keyboard.Driver.Interrupt` | student-distrib/interrupt_handler.c:34-63 | the in-place interrupt equals the key step; a typed character of the current row is stored at the counter |
| `Keyboard.Driver.Read` | student-distrib/keyboard.c:255-305 | the caller gets the pending text and a NUL; the buffer, counter and flag are cleared |
| `Machine.StepCouples` | student-distrib/scheduler.c:58-67 | processes, screens and keyboard always agree on schedule_index and visible_screen |
| `Machine.ScheduleGoesRound` | student-distrib/scheduler.c:43-60 | n timer switches move the schedule on by n, modulo 3, whatever else happens |
| `Machine.OutputReachesOwnScreen` | student-distrib/lib.c:239-306 | over every run the screen of a terminal is what the output of the processes started on it and the keys typed while it was visible make of it, output through a stale alias included |
| `Machine.ScanOnScreens` | student-distrib/keyboard.c:138-171 | Ctrl-L clears the visible screen, backspace takes a pending character off it, a typed character of the current row is put on it, and no key stroke changes any other screen |
| `Machine.PrintOnScreens` | student-distrib/lib.c:239-267 | with a coherent alias a printed character goes to the scheduled terminal's console and to no other |
| `Machine.BuffersHoldTypedText` | student-distrib/interrupt_handler.c:34-63 | over every run each buffer holds the edited text typed on its terminal |
| `Machine.ReadDeliversVisibleLine` | student-distrib/keyboard.c:268-303 | the line a process takes is the text typed on the terminal visible at that moment since the line before |
| `Machine.ReadsOwnLineExactlyWhen` | student-distrib/keyboard.c:265-303 | behind its wait a process takes its own terminal's line if and only if the last screen switch since did not leave the display elsewhere |
| `Machine.SwitchDuringRead` | student-distrib/keyboard.c:265-303 | with Alt-F2 in between a process of terminal 0 gets terminal 1's line, and its own flag stays up |
| `Machine.TerminalAlone` | student-distrib/scheduler.c:60-67 | while no switch takes the display to or from the scheduled terminal, no output goes astray, and a terminal's screen, cursor and line are a function of its own output, keys and reads |
| `Machine.SameHistorySameTerminal` | student-distrib/vidctl.c:55-85 | two such runs with the same history on a terminal end with the same screen, cursor and line there, whatever the other terminals do |
| `Machine.EchoFollowsText` | student-distrib/interrupt_handler.c:39-57 | one key stroke changes the line on screen as it changes the line in the buffer |
| `Machine.ScreenShowsPendingLine` | student-distrib/keyboard.c:155-169 | while only printing characters are typed and taken back on a terminal, and its processes are silent, its screen shows exactly the line a read would deliver, across wraps and scrolls |
| `Machine.WipeHidesLine` | student-distrib/lib.c:295-306 | after Ctrl-L a pending line is not on the screen |
| `Machine.BootCoupled` | student-distrib/kernel.c:39-155 | the boot state is coupled and its buffers are empty |
| `Machine.EveryReachableMachine` | student-distrib/kernel.c:39-162 | in every state reached from boot, boot messages included, output is that of the scheduled terminal's process, each screen is made by what was meant for it, and each buffer holds its terminal's text |
| `Machine.ReachableTerminalAlone` | student-distrib/kernel.c:39-162 | the same isolation from boot on |
| `MemoryOps.MemCpy` | student-distrib/lib.c:526-563 | bytes, dwords, bytes equal one block copy for every alignment and length, for disjoint regions and for copies downwards |
| `MemoryOps.MemMove` | student-distrib/lib.c:572-590 | the original source bytes arrive for every overlap, and nothing else changes |
| `MemoryOps.MemSet` | student-distrib/lib.c:443-477 | exactly n bytes become the low byte of c |
| `MemoryOps.EveryByte` | student-distrib/lib.c:443-590 | what a copy and a fill leave at every address |
| `NumberText.TextRoundTrip` | student-distrib/lib.c:375-405 | for every 32-bit value and radix 2..36 the text parses back, has no superfluous leading zero and at most 32 characters |
| `NumberText.DigitIsLookup` | student-distrib/lib.c:376 | digit d is the d-th of 0 to 9 and A to Z |
| `NumberText.StrRev` | student-distrib/lib.c:411-424 | the string up to its terminator is reversed in place and nothing else changes |
| `NumberText.Itoa` | student-distrib/lib.c:375-405 | the buffer holds the text and a terminator and is otherwise unchanged |
| `NumberText.HexPadded` | student-distrib/lib.c:92-102 | exactly eight characters: zeros, then the text; they parse back to the value |

## Left out

- Kernel.Kernel.Read: the waits of the keyboard and the RTC are not modelled; that the keyboard's is over is a precondition, and what interrupts do behind it is in `Machine`.
- Kernel.DriverRead: the same.
- Machine.ScreenShowsPendingLine: a pending newline and output of the terminal's own processes in the middle of a line are outside it; `TextConsole.EraseBreakExactlyWhen` and `Machine.OutputReachesOwnScreen` say what happens then.
- Grep.DoOneFile: the descriptor is one that fills each request until the end of the file and never fails, which this kernel's own `file_read` is only as far as `FileSystem.FillsExactlyWhen` says; the messages for a failed open, read or close are not modelled.
- Machine: interrupts inside the copying and clearing loops of `keyboard_read`; only those before it and, in `Keyboard.KeyBeforeReset`, those before its last assignment are modelled.
- MemoryOps.MemCpy: copies upwards between overlapping regions are outside its contract, as they are in C.
- Process steps: a file read, or the magic-number read of execute, that would leave the inode's block list or memory (an empty file, zero bytes at offset zero), a directory without entries, and a command word of 128 bytes or more are excluded, because the source then reads or writes memory it does not own.
- Keyboard: more than 127 pending characters, after which the buffer has no terminator.
- Exit status: `ret_status` is one global for all terminals, so nothing is claimed about it.
- Registers and hardware: `esp`, `ebp`, `iret`, TLB flushes, port I/O, PIC, PIT, IDT and descriptor tables, boot code.
- `vidmap`, `pte_vid` and writes by user programs into the mapped page.
- Program loading: the copy of the file into user memory by execute.
- The characters drawn by the blink list, including the one chosen by a sync.
- The four key tables, which are a parameter with 0 at index 0.
- `rtc_write`, `write` other than its characters on a screen, `printf` other than `%#x`, `memset_word`, `memset_dword`, `strncmp`, `strcpy`, and the simple user programs.
