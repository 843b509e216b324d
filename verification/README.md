# A verified model of the TMNT kernel

TMNT is a small teaching kernel with three virtual consoles, round-robin tasks
and a handful of user programs. This project models its stateful core in Dafny
and proves what that core is meant to keep:

- **Processes.** Execute, halt, the timer, open and close, on a pid table,
  control blocks linked by parent pids, task records and registers. Every run of
  them is a run of three *stacks of processes* (`Processes`); from that follow
  the parent chains, the registers at rest, the execute/halt round trip and the
  resumption of suspended tasks (`KernelState`, `KernelTheorems`). The calls
  themselves, with their loops and tables updated in place, are `Kernel`.
- **Consoles.** One page of video memory, three private pages, a page map
  rewritten by every tick and every Alt-F switch, cached coordinates. Every run
  of them is a run of three *independent terminals* (`Consoles`), each of which
  shows 25 rows of an endless tape (`Screen`) and edits a line of input
  (`Terminal`). `ConsoleState` holds the refinement, `ConsoleResets` the runs in
  which screens are cleared, and `Console` the calls.
- **Blinkers.** A linked list inside an array whose allocator takes location 0
  for "free", a countdown with a closed form in time, and the two frames of the
  fish read in lock step (`Blinks`, `BlinkArray`, `BlinkDriver`, `Frames`,
  `Animation`).
- **grep.** A search through a 1024-byte buffer that carries partial lines from
  read to read, against "the lines that contain the pattern" (`Grep`).
- **Primitives.** Command parsing and getargs (`Command`), memory moves
  (`MemoryMoves`) and number printing (`Numbers`).

The shape is the same throughout: a class or a method in the source's own form,
a function of the old state that says what it does, and lemmas that relate that
function to an independent, simpler description over every input or every run.

## Premises

- System calls, interrupts and ticks are atomic steps; saved ESP and EBP are
  opaque contexts; the file system is a constant map in which "shell" is an
  executable.
- The search for a pid also tests the word after the pid table
  (student-distrib/process.h:65-80). The model has a slot for it, which is either
  taken for good or free to begin with, and the results hold in both cases.
- Until the second tick the first two shells start no program, and each has a
  descriptor left when its tick comes (`KernelTheorems.BootOk`). What happens
  otherwise is `KernelTheorems.EarlyExecuteLosesParent` and
  `KernelTheorems.NextShell`.
- For a file that is not a regular one, or is shorter than four bytes, the
  header test reads memory that the model does not describe; each execute step
  carries an arbitrary answer for that case.
- grep's buffer is not initialised by the program; it is taken to hold no
  newline. Reads are short only at the end of a file.
- Keys arrive as translated ASCII codes.

## Where the code does not do what it is for

- A write between a switch to another terminal and the next tick moves the
  task's cursor but reaches no screen (the event `Wrote` with `lost`).
- A read empties the active terminal's buffer, not the reader's
  (`Consoles.ReadEmptiesActive`).
- An Enter at a full input buffer leaves the buffer (`Terminal.KeyEdits`), and a
  backspace at the origin leaves the window (`Screen.CursorStays`).
- A failed execute of a file that is no executable keeps a descriptor open
  (`Processes.FailedExecute`).
- An add at location 0 breaks the agreement of list and allocator
  (`BlinkDriver.Driver.AddBlinker`), and a later add can make the list endless
  (`BlinkArray.EveryPoolRun` says when); a sync always writes the off character
  (`Blinks.SyncShowsOff`); lengths outside 1..0x8000 last one tick
  (`Blinks.LengthsKept`).
- Clearing a screen at the halt of a base shell leaves the terminal's recorded
  place behind, and a key echoed before the task's next write or tick goes there
  (`ConsoleState.ResetThenKey`).
- Cells of the fish that are asked for twice with different characters, or after
  the list is full, are not animated; a location that wraps around to 0 can stop
  the animation altogether (`Animation.Animates`, `Animation.WrapsAround`).
- grep cuts lines longer than its buffer (`Grep.BufferedIsSimple`).

## Model

| member | source | states |
|---|---|---|
| `Processes.StepOk` | student-distrib/sys_call.c:30-281 | every step keeps three nonempty stacks with base pids 0 to 2 and no pid twice in the system |
| `Processes.Run` | student-distrib/sys_call.c:30-281 | the stacks are well formed after every run |
| `Processes.RunKeepsBelow` | student-distrib/sys_call.c:210-266 | while a task stays above a level, the processes below it are untouched and the one at it is the same |
| `Processes.ExecuteHaltRoundTrip` | student-distrib/sys_call.c:30-97 | from execute to its halt, with any nested executes and other tasks in between, the parent's stack is as it was, the status is returned to the place of the call, and the child's pid is free |
| `Processes.ArgumentsLater` | student-distrib/sys_call.c:438-475 | whenever the new program runs, getargs delivers the argument of its command and a NUL, or as much as was asked for, and refuses exactly an empty argument, a negative count or an address outside the program's memory |
| `Processes.ExecuteStarts` | student-distrib/sys_call.c:132-208 | execute starts a program if and only if the command is not empty, its first word names a file that begins with 7F 45 4C 46, and a pid and a descriptor are left; it gets the least pid not in use |
| `Processes.NewProcess` | student-distrib/sys_call.c:210-266 | the new process is pushed on its task's stack with descriptors 0 and 1 only and the place of the call to return to; nothing else changes |
| `Processes.BaseShellRestarts` | student-distrib/sys_call.c:52-60 | when a base shell halts, a shell without files and without argument takes its place under the same pid |
| `Processes.ShellIs` | student-distrib/sys_call.c:59 | the program restarted is the executable called "shell", in bytes |
| `Processes.OpenReturns` | student-distrib/sys_call.c:360-403 | open returns the least descriptor in 2..7 not in use, or -1 exactly if there is none or no such file |
| `Processes.CloseUndoesOpen` | student-distrib/sys_call.c:415-430 | close undoes open, once; it succeeds exactly on 2..7 in use |
| `Processes.SuspendedUnchanged` | student-distrib/scheduling.c:79-158 | on the stacks: a suspended task does not change, whatever the others do; `KernelTheorems.SuspendedTables` says it of the tables |
| `Processes.ResumesWhereSuspended` | student-distrib/scheduling.c:91-156 | on the stacks: a task goes on at the very context it was switched out with; `KernelTheorems.Resumption` says it of the tables and registers |
| `Processes.FailedExecute` | student-distrib/sys_call.c:150-208 | a failed execute takes no pid; it leaves everything as it was if and only if it did not get to the header of a non-executable |
| `KernelState.OwnStack` | student-distrib/process.h:42-49 | control block and kernel stack of pid p lie in the eight kilobytes below 0x80_0000 - p * 0x2000, and those of different pids do not overlap |
| `KernelState.OwnPage` | student-distrib/process.h:40 | the program page of pid p is the four megabytes from 0x80_0000 + p * 0x40_0000 on; pages of different pids do not overlap, and all lie above every control block and kernel stack |
| `KernelState.LaunchRefines` | student-distrib/sys_call.c:210-266 | setting up a new process pushes it, with no file open, on its task's stack |
| `KernelState.PopRefines` | student-distrib/sys_call.c:40-75 | the parent links lead halt to the process below on the stack, with its registers |
| `KernelState.RestartsInPlace` | student-distrib/sys_call.c:52-60 | halting a base shell starts a shell at the same pid; the clearing of the screen is `ConsoleState.ResetKeeps` |
| `KernelState.TickRefines` | student-distrib/scheduling.c:79-158 | a tick suspends the current task and takes up the next one where it was |
| `KernelState.OpenRefines` | student-distrib/sys_call.c:360-403 | open takes the least free descriptor of the running process only |
| `KernelState.CloseRefines` | student-distrib/sys_call.c:415-430 | close frees that descriptor of the running process only, and never 0 or 1 |
| `KernelState.StepRefines` | student-distrib/sys_call.c:30-430 | every step of the tables is the step of the stacks, with the same outcome |
| `KernelState.RunRefines` | student-distrib/sys_call.c:30-430 | every run of the tables is a run of the stacks |
| `KernelTheorems.BootRefines` | student-distrib/scheduling.c:29-69 | booting leaves three tasks with a base shell each, whatever the first two shells open, close, halt or fail to execute meanwhile |
| `KernelTheorems.NextShell` | student-distrib/scheduling.c:128-134 | during the boot a tick starts the next shell if and only if the shell that runs has a free descriptor |
| `KernelTheorems.EveryRun` | student-distrib/sys_call.c:30-281 | after booting, over every run: the parent chains end at the base shells, meet no pid twice and cover exactly the taken pids of the table; a process on a chain has descriptors 0 and 1 in use and every other block has nothing open; pid register, kernel stack and user page belong to the process that the current record names |
| `KernelTheorems.RoundTrip` | student-distrib/sys_call.c:49-97 | after the matching halt the parent has its pid register, esp0, user page and task record back |
| `KernelTheorems.SuspendedTables` | student-distrib/scheduling.c:79-158 | over every run of the other tasks a suspended task keeps its record, its chain and every field of the control blocks on it |
| `KernelTheorems.Resumption` | student-distrib/scheduling.c:91-156 | from one tick to the tick that takes the task up again, whatever ran in between: the processor goes on at the saved context, with pid register, esp0, user page and record as they were |
| `KernelTheorems.ParentIsCaller` | student-distrib/sys_call.c:140-148 | the parent link names the caller if and only if the three base pids are taken |
| `KernelTheorems.EarlyExecuteLosesParent` | student-distrib/sys_call.c:140-148 | a program executed before the other shells are up gets no parent |
| `Kernel.Kernel.constructor` | student-distrib/scheduling.c:37-45 | the tables as loaded, with the first task marked |
| `Kernel.Kernel.FirstAvailablePid` | student-distrib/process.h:64-80 | the search finds the least free pid and marks it taken, or reports none and marks nothing |
| `Kernel.Kernel.Open` | student-distrib/sys_call.c:360-403 | makes the open step |
| `Kernel.Kernel.Close` | student-distrib/sys_call.c:415-430 | makes the close step |
| `Kernel.Kernel.Launch` | student-distrib/sys_call.c:210-266 | sets up block, record and registers of the new process |
| `Kernel.Kernel.CheckFile` | student-distrib/sys_call.c:192-219 | the caller's descriptors are as before unless the file is no executable |
| `Kernel.Kernel.Execute` | student-distrib/sys_call.c:113-281 | makes the execute step, on every path |
| `Kernel.Kernel.Halt` | student-distrib/sys_call.c:30-97 | makes the halt step on the process tables, restarting base shells; the screen is cleared by `Console.Console.ResetScreen` |
| `Kernel.Kernel.Schedule` | student-distrib/scheduling.c:79-158 | makes the tick step, starting shells that have not started |
| `Kernel.Kernel.PerformAll` | student-distrib/sys_call.c:30-430 | any sequence of calls follows the machine |
| `Command.SplitExists` | student-distrib/sys_call.c:158-190 | every command has a split into spaces, word, gap, argument and tail |
| `Command.SplitUnique` | student-distrib/sys_call.c:158-190 | and only the one that scanning finds |
| `Command.Parse` | student-distrib/sys_call.c:158-190 | the loops put the word and the argument of that split into NUL-filled buffers |
| `Command.Strncpy` | student-distrib/lib.c:551-562 | the string, cut at n bytes, filled up with NULs, and nothing beyond |
| `Command.GetArgs` | student-distrib/sys_call.c:438-475 | the argument and its NUL, or as much as fits, and nothing beyond |
| `Command.ArgumentRoundTrip` | student-distrib/sys_call.c:438-475 | for every count and address, getargs delivers the argument of the command's only split and a NUL, or as much as was asked for, and fails exactly on an empty argument, a negative count or an address outside 128 to 132 megabytes |
| `Screen.CursorStays` | student-distrib/lib.c:203-231 | a character keeps the cursor in the window if and only if it is not a backspace at the origin |
| `Screen.ScrollDisplay` | student-distrib/lib.c:690-705 | the rows move up by one, the last is blank, the rest of the page stays |
| `Screen.ScrollMoves` | student-distrib/lib.c:690-705 | in numbers, where each of the 2048 cells of the page comes from |
| `Screen.PutChar` | student-distrib/lib.c:203-231 | in place, what a character does to a screen |
| `Screen.CharactersOnTape` | student-distrib/lib.c:203-231 | in bytes: 0x0A and 0x0D go to the next multiple of 80 and write nothing, 0x08 goes one back and writes a NUL, every other character is written with attribute 7 and goes one on; no other cell changes |
| `Screen.PutShows` | student-distrib/lib.c:203-278 | the screen stays 25 rows of the endless tape, on which a character moves one on, a newline to the next row and a backspace one back, blanking |
| `Screen.ShowsOwnTape` | student-distrib/lib.c:203-278 | every screen, whatever is on it, is the window on a tape |
| `Terminal.KeyEdits` | student-distrib/terminal.c:257-289 | the buffer edits its text like a line editor given in bytes (NUL and tab ignored, 127 characters and Enter) and holds newlines from its index on, if and only if Enter does not find it full; Enter alone ends the input |
| `Terminal.EchoedIfEdited` | student-distrib/terminal.c:257-289 | a key is echoed if and only if it changes the line |
| `Terminal.PokeWritesByte` | student-distrib/sys_call.c:483-494 | a program's write to video memory changes exactly the byte at its offset |
| `Terminal.EventShows` | student-distrib/lib.c:249-278 | writes and accepted keys make the same step on screen and tape |
| `Terminal.KeySpells` | student-distrib/terminal.c:257-289 | an editing key keeps the tape spelling the buffer and can leave neither window nor buffer, even when the line scrolls |
| `Terminal.LineSpells` | student-distrib/terminal.c:257-289 | so does every sequence of editing keys |
| `Terminal.TypedLine` | student-distrib/terminal.c:257-289 | from an empty buffer, any editing keys: the buffer holds the edited line, the tape spells it from where the cursor was, and the cursor is at its end |
| `Terminal.PrintableStays` | student-distrib/terminal.c:280-287 | of printable characters the first 127 make the line, as typed |
| `Terminal.BackspaceUndoes` | student-distrib/terminal.c:265-273 | a backspace takes back the character before it |
| `Terminal.ReadReturnsLine` | student-distrib/terminal.c:127-142 | after one Enter a read returns the first min(nbytes, length + 1) bytes of the edited line and its newline |
| `Terminal.ReadAmongEvents` | student-distrib/terminal.c:98-143 | the same whatever else happens to the terminal between the keys |
| `Terminal.PrintableRead` | student-distrib/terminal.c:98-143 | for printable characters and Enter the read returns these characters and a newline |
| `Terminal.OnlyEnterEnds` | student-distrib/terminal.c:121-125 | without Enter an input that a read has begun does not end, whatever else happens |
| `Consoles.Isolation` | student-distrib/terminal.c:450-497 | over every run a terminal is changed by its own events only |
| `Consoles.ScreenIsWindow` | student-distrib/lib.c:203-278 | over every run without lost writes and pokes its screen shows the tape of its own characters |
| `Consoles.ReadEmptiesActive` | student-distrib/terminal.c:430-440 | a read empties the reader's buffer if and only if the reader is on the active terminal or had nothing |
| `ConsoleState.TickKeeps` | student-distrib/scheduling.c:103-121 | a tick's remapping, saving and loading changes no terminal's screen, place or input |
| `ConsoleState.PagesApart` | student-distrib/terminal.c:69 | video memory is at 0xB8000, the private pages follow it four kilobytes apart, and the programs' page is at 132 megabytes |
| `ConsoleState.TickSettles` | student-distrib/scheduling.c:103-121 | whatever place is cached, a tick saves it to its terminal, changes nothing else that a user sees, passes the turn from task 0 to 1 to 2 to 0 and restores the invariant |
| `ConsoleState.SwitchKeeps` | student-distrib/terminal.c:460-490 | a switch's copying and remapping changes no terminal's screen, place or input |
| `ConsoleState.SwitchMaps` | student-distrib/terminal.c:460-490 | after it exactly one terminal is active, every page leads to its home, and the running task's writes go astray if and only if it is not on the new terminal |
| `ConsoleState.WriteKeeps` | student-distrib/lib.c:203-243 | a task's write changes its own terminal only, and only the place if it goes astray; the place moves on in either case; cached place and hardware cursor agree |
| `ConsoleState.PokeKeeps` | student-distrib/sys_call.c:483-494 | a program's own write to video memory changes its own terminal only, and none if it goes astray |
| `ConsoleState.EchoKeeps` | student-distrib/lib.c:249-278 | an echo changes the active terminal only |
| `ConsoleState.ResetKeeps` | student-distrib/lib.c:664-672 | a reset clears the running task's own screen only, none if its writes go astray: all 2000 cells hold a space with attribute 7 and the page's end stays; cached place and hardware cursor go to the origin and are right if and only if the task's terminal and the active one were there |
| `ConsoleState.ResetThenTick` | student-distrib/lib.c:664-672 | the next tick makes the origin the place of the cleared terminal and changes no other |
| `ConsoleState.ResetThenWrite` | student-distrib/lib.c:664-672 | a character written first goes to the origin; the hardware cursor is right again if and only if the task is on the active terminal or that one is at the origin |
| `ConsoleState.ResetThenKey` | student-distrib/lib.c:664-672 | a key pressed first, with the task on the active terminal, is echoed at the place from before the reset |
| `ConsoleState.KeyKeeps` | student-distrib/terminal.c:257-289 | a key changes the active terminal's screen and input only |
| `ConsoleState.ReadRefines` | student-distrib/terminal.c:98-143 | beginning a read changes the input of the reader's terminal only, finishing it that of the active one only |
| `ConsoleState.StepRefines` | student-distrib/terminal.c:98-497 | every step of pages, map and records is the step of three independent terminals |
| `ConsoleState.RunRefines` | student-distrib/terminal.c:98-497 | every run is a run of three independent terminals |
| `ConsoleState.EveryRunIsolated` | student-distrib/terminal.c:450-497 | over every run what a user sees comes from that terminal's own events only, wherever the pages are |
| `ConsoleState.EveryRunShows` | student-distrib/lib.c:203-278 | over every run of pages, map and records a terminal that got no lost write and no poke shows the tape that begins with its first screen and goes on with its own characters |
| `ConsoleState.ReaderGetsLine` | student-distrib/terminal.c:98-143 | over every run of pages, map and records: a read that begins with an empty buffer and whose terminal gets the keys of a line and Enter can finish when the reader runs again, and returns the first min(nbytes, length + 1) bytes of the edited line and its newline |
| `ConsoleState.ReaderGetsText` | student-distrib/terminal.c:98-143 | over every run, for a line of printable characters the read returns these and a newline |
| `ConsoleState.ReaderWaits` | student-distrib/terminal.c:121-125 | over every run, a read that has begun cannot finish until Enter is pressed on its own terminal |
| `ConsoleResets.AnyStepKeeps` | student-distrib/lib.c:203-278 | with resets among the steps and whatever place is cached: a step changes a terminal, and the place its task writes at, only by that terminal's own event |
| `ConsoleResets.EveryRunWithResets` | student-distrib/lib.c:664-672 | over every run with resets in it, a terminal's screen and input and the place its task writes at come from its own events only |
| `Console.Console.constructor` | student-distrib/terminal.c:41-87 | opening establishes the invariant, with the first terminal active |
| `Console.Console.Tick` | student-distrib/scheduling.c:103-141 | makes the tick step, also after a reset, and establishes the invariant |
| `Console.Console.SwitchTerminals` | student-distrib/terminal.c:450-497 | makes the switch step, also after a reset, and keeps the invariant |
| `Console.Console.Putc` | student-distrib/lib.c:203-243 | makes the write step, also after a reset, and keeps the invariant |
| `Console.Console.ResetScreen` | student-distrib/lib.c:664-672 | makes the reset step |
| `Console.Console.PutcActive` | student-distrib/lib.c:249-278 | makes the echo step |
| `Console.Console.UpdateCursorActive` | student-distrib/lib.c:605-629 | the hardware's cursor and the cache follow the active terminal |
| `Console.Console.KeyPressed` | student-distrib/terminal.c:254-290 | makes the key step, also after a reset, and keeps the invariant |
| `Console.Console.FinishRead` | student-distrib/terminal.c:98-143 | returns the reader's bytes and empties the active terminal's buffer; a negative count returns -1 and changes nothing |
| `Console.Console.PerformAll` | student-distrib/terminal.c:98-497 | any sequence of steps follows the memory |
| `Console.Console.PerformEach` | student-distrib/lib.c:664-672 | any sequence of steps and resets follows the memory |
| `Blinks.ClosedForm` | fish/blink.S:60-90 | after t ticks a blinker is on if and only if t modulo its period is below its on-time, for all 16-bit lengths |
| `Blinks.LengthsKept` | fish/blink.S:60-90 | a blinker is on and off for the lengths asked for at every tick if and only if both are in 1..0x8000 |
| `Blinks.EveryRun` | fish/blink.S:49-300 | over every run of add, remove, sync and tick the list is determined by the requests and their ages; the array holds this list as long as no add is handed a slot of it (`BlinkArray.EveryPoolRun`) |
| `Blinks.Statuses` | fish/blink.S:128-293 | an add succeeds if and only if it is on the 2000 cells and there are fewer than 2000 blinkers, a remove or sync if and only if there are blinkers at the locations named; a call that fails returns -1 and changes nothing |
| `Blinks.TickShows` | fish/blink.S:60-90 | a tick leaves every blinker showing its face |
| `Blinks.EveryRunShows` | fish/blink.S:49-237 | over every run with distinct locations and no sync each blinker of the list shows its face; attribute bytes never change in any run; the array follows as in `BlinkArray.EveryPoolRun` |
| `Blinks.SyncShowsOff` | fish/blink.S:267-286 | after a sync the blinker shows its face if and only if it is off or has one face |
| `BlinkArray.FullIsAll` | fish/fish.c:160-170 | the list fills the array if and only if every slot is in it |
| `BlinkArray.AddKeeps` | fish/blink.S:140-162 | a free slot put in front keeps the list acyclic, with the new node before the old ones |
| `BlinkArray.AddPool` | fish/fish.c:160-170 | list and allocator still agree if and only if the new location is not 0 |
| `BlinkArray.AddEndless` | fish/blink.S:140-162 | from any list, an add makes the walk through it endless if and only if the allocator hands out a slot that is in the list |
| `BlinkArray.AddAtZeroLoops` | fish/blink.S:140-162 | after two adds the walk through the list is endless if and only if the first succeeded at location 0 and the second is on the screen; the head is then its own successor |
| `BlinkArray.FreeNotListed` | fish/fish.c:160-170 | a slot the allocator hands out is not in the list |
| `BlinkArray.RemoveKeeps` | fish/blink.S:201-223 | leading the previous link past a node takes out exactly that node and frees its slot |
| `BlinkArray.StepPool` | fish/blink.S:49-300 | a step of array, links and screen is the step of the list, unless it is an add on the screen while the first slot with location 0 is in the list, which makes the list endless |
| `BlinkArray.EveryPoolRun` | fish/blink.S:49-300 | over every run of add, remove, sync and tick, adds at location 0 included: the list becomes endless if and only if at some step an add is handed a slot of the list, and until then the array holds the list of `Blinks.Run` |
| `BlinkArray.NoZeroNoLoop` | fish/blink.S:49-300 | a run that never adds at location 0 does not loop, and list and allocator agree after it |
| `BlinkArray.StaysEndless` | fish/blink.S:140-162 | an endless list stays endless under every further add |
| `BlinkDriver.Driver.Malloc` | fish/fish.c:160-170 | the first slot with location 0, or NULL if there is none |
| `BlinkDriver.Driver.FindHelper` | fish/blink.S:351-379 | the newest node at the location, or NULL |
| `BlinkDriver.Driver.AddBlinker` | fish/blink.S:105-184 | in any state, what happens to array, head and screen; from any list it makes the list endless if and only if it is on the screen and the slot handed out is in the list, and else makes the add step; list and allocator go on agreeing if and only if it failed or the location is not 0 |
| `BlinkDriver.Driver.RemoveBlinker` | fish/blink.S:187-237 | removes exactly the newest match |
| `BlinkDriver.Driver.SyncBlinkers` | fish/blink.S:240-300 | makes the sync step |
| `BlinkDriver.Driver.FindBlinker` | fish/blink.S:302-349 | a copy of the newest match |
| `BlinkDriver.Driver.TickNode` | fish/blink.S:64-86 | the decrement, signed test and toggle of one node are the tick of one blinker |
| `BlinkDriver.Driver.Tasklet` | fish/blink.S:49-99 | makes the tick step |
| `BlinkDriver.Driver.PerformAll` | fish/blink.S:49-300 | any run in which no add is handed a slot of the list follows array and list; if none is at location 0, list and allocator agree |
| `Frames.AddFrames` | fish/fish.c:78-148 | terminates; the requests are the non-blank cells of the longer zip of the two texts' rows, row by row, with 16-bit locations |
| `Frames.CellsAsked` | fish/fish.c:118-127 | about the texts: each cell (r, col) at which one of them has a character is asked for at location (80 r + col + 40) mod 65536, the first text's character on and the second's off, 15 ticks each, and nothing else is asked for |
| `Frames.RowsSpell` | fish/fish.c:96-146 | the rows of a text, with newlines between them, spell the text |
| `Frames.RowsHaveNoNewline` | fish/fish.c:96-146 | and none has a newline in it |
| `Animation.AllRising` | fish/fish.c:122-127 | on texts whose rows fit the screen's width the requests' locations rise, so none repeats |
| `Animation.Animates` | fish/fish.c:23-44 | for any two texts, on the array: every tick ends and every cell asked for on the screen shows the first frame while t mod 30 < 15 and else the second, for all t and all screens, if and only if requests for one cell agree, each cell is asked for before the list is full, and no request taken at location 0 is followed by another on the screen; that last failure is exactly when the list is endless |
| `Animation.ListAnimates` | fish/fish.c:23-44 | the same on the list alone, with the first two conditions |
| `Animation.AddsInArray` | fish/fish.c:78-148 | from any list that agrees with the allocator, what all requests leave in the array: an endless list if and only if a taken request at location 0 is followed by another on the screen, else the array of the run |
| `Animation.ArrayFollows` | fish/fish.c:23-44 | without such a loop the array holds the list of `Blinks.Run` after all requests and any number of ticks, and the screen is the same |
| `Animation.WrapsAround` | fish/fish.c:122-127 | one row of 65498 characters, blank but for the last two, asks for locations 0 and 1 and is not animated |
| `Animation.FittingAnimates` | fish/fish.c:23-44 | texts whose rows fit the width of the screen meet that condition |
| `Animation.ShowsTexts` | fish/fish.c:23-44 | where the condition of `Animates` holds, every cell of the texts that is on the screen shows the first text's character while t mod 30 < 15 and else the second's |
| `Animation.FishShown` | fish/fish.c:23-44 | for texts with rows of at most 80 characters: the character at row r and column col is on the screen at cell 80 r + col + 40, the first text's for fifteen ticks and the second's for the next fifteen |
| `Animation.SparesTheRest` | fish/fish.c:23-44 | bytes at no cell of the texts stay as they were |
| `Animation.OthersStay` | fish/fish.c:23-44 | for any requests, no byte changes but at the locations of requests that were kept |
| `Grep.LinesSpell` | syscalls/tmntgrep.c:28-57 | the lines of the reference, each with its newline, spell the file |
| `Grep.ContainsMeans` | syscalls/tmntgrep.c:42-44 | a line contains the pattern if and only if it is some text, the pattern and some text |
| `Grep.BufferedIsSimple` | syscalls/tmntgrep.c:21-60 | for a nonempty pattern, the pieces printed are the lines that contain the pattern if and only if none of those lines is longer than the buffer |
| `Grep.Strcpy` | syscalls/tmntsupport.c:14-17 | the overlapping downward copy delivers the string and its NUL and nothing more |
| `Grep.Strncmp` | syscalls/tmntsupport.c:35-46 | zero if and only if the pattern occurs there |
| `Grep.Search` | syscalls/tmntgrep.c:40-51 | finds the pattern if and only if the line contains it |
| `Grep.SearchBuffer` | syscalls/tmntgrep.c:28-57 | what is printed and what is kept for the next read make up what was owed |
| `Grep.DoOneFile` | syscalls/tmntgrep.c:9-66 | terminates; on every NUL-free file prints exactly the pieces of lines, of at most 1024 bytes, that contain the pattern, each after the file's name, or the beginning of that and a message if a read fails; status and messages for failing open, read and close |
| `MemoryMoves.Memset` | student-distrib/lib.c:354-388 | the low byte of c in exactly the n bytes, for every alignment |
| `MemoryMoves.Memcpy` | student-distrib/lib.c:437-474 | the original source bytes if the areas are apart or the destination is the lower; nothing else changes |
| `MemoryMoves.Memmove` | student-distrib/lib.c:483-501 | the original source bytes for every overlap; nothing else changes |
| `Numbers.PrintedNumber` | student-distrib/lib.c:286-316 | for every 32-bit value and radix 2..36: only digits 0-9 and capital letters of the radix, which evaluate to the value, at most 32 of them, without a leading zero unless the value is 0 |
| `Numbers.Strrev` | student-distrib/lib.c:322-335 | the string reversed in place and nothing else |
| `Numbers.Itoa` | student-distrib/lib.c:286-316 | writes those digits and a NUL and nothing else |
| `Numbers.PrintHex` | student-distrib/lib.c:111-130 | always eight digits, of the radix, with the same value |
| `Numbers.PrintDecimal` | student-distrib/lib.c:142-156 | the digits of the value without a leading zero, behind a minus sign if it is negative |

## Left out

- Paging, file system, RTC, PIT, malloc, port I/O, descriptor tables, interrupt controllers, mode X and the mouse are not part of this model.
- Scancode translation, Ctrl-C and Ctrl-L: the model starts from ASCII codes of plain keys and Alt-F combinations.
- The hardware's cursor over runs with resets: `ConsoleResets` follows screens, inputs and writing places; the cursor is described after one reset only.
- Kernel.Kernel.Halt: the process tables only; the processes and the console are not joined into one machine, in which this call would also make the console's reset step.
- `sys_read`, `sys_write` and `terminal_write`: dispatch and a loop over single characters, which are the steps of the console.
- `tmnt_itoa`, `tmnt_strrev`, `tmnt_strcmp` and `memset_word`/`memset_dword`: the same as, or simpler than, members that are here.
- The sample programs other than grep and fish, and the Linux emulation: thin callers of system calls.
- Grep.DoOneFile: on a file with NUL bytes only termination, the status and the bounds of the buffer are stated, because strings in the buffer end at the first NUL.
- Grep.SearchBuffer: the same restriction to NUL-free files.
- MemoryMoves.Memcpy: for a destination above an overlapping source only the bytes outside it are described, as the C standard leaves that case undefined.
- KernelState.StepRefines: execute is described for commands shorter than the kernel's buffers of 128 bytes, which the code does not check.
- Kernel.Kernel.Execute: the same bound of 128 bytes on commands.
- ConsoleState.StepRefines: backspaces at the origin and Enters at a full buffer are excluded, because they write outside the window and the buffer.
- Command.Parse: the same bound of 128 bytes on commands.
- Console.Console.KeyPressed: only keys that stay in the window and the buffer, as in ConsoleState.StepRefines.
- Screen.PutChar: no backspace at the origin, which would write before the page; `Screen.CursorStays` shows that this is the only exit from the window.
- Console.Console.Putc: no backspace at the origin.
- Console.Console.PutcActive: no backspace at the origin.
- BlinkDriver.Driver.PerformAll: runs up to an add that makes the list endless; what a remove or a sync does to an endless list is not described.
- Interrupt flags, instruction-level stack switching and IRET: steps are atomic and contexts opaque.
