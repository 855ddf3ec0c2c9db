# Proofs for a teaching kernel and its user programs

This project models an x86 teaching kernel with three virtual terminals, and some of its user
programs, in Dafny, and proves what they promise. `dafny verify dfyconfig.toml` checks all of it.

What the system changes in place is changed in place here: the console (one video memory, three
backing buffers, two twin families of output routines) is the class `Console`, the process tables are
the class `Kernel`, an open file is the class `OpenFile`, the pool of blink nodes is the class
`BlinkList`, and the buffer routines are methods with loops over arrays.  Each method is proved to
compute a function of the old state, and the laws are proved about those functions.

| files | what they hold |
|---|---|
| `text.dfy` | bytes, lines, C strings |
| `screen.dfy` | the 80 by 25 screen as a window on an endless tape, and the layout of a text |
| `keyboard.dfy`, `terminals.dfy`, `intrusions.dfy` | scancodes, three private terminals over any interleaving, and where one reaches into another |
| `terminallaws.dfy`, `keylaws.dfy`, `sessions.dfy` | the screen, the line discipline and the Enter of a terminal over runs; what the keys mean; a line typed code by code and read |
| `console.dfy`, `memory.dfy` | lib.c and terminal.c on real buffers, refining the private terminals; memcpy and memmove |
| `numbers.dfy`, `formats.dfy` | itoa, strrev and the conversions of printf |
| `commands.dfy` | the command-line scanner of execute, and getargs |
| `filesystem.dfy`, `directory.dfy`, `records.dfy` | the block walk as a flat file, positions, cat, name lookup, and the records of the directory byte by byte |
| `paging.dfy`, `processes.dfy`, `kernel.dfy` | frames and kernel stacks; execute, halt, the timers and descriptor calls, first as steps on values, then as methods on the tables |
| `runs.dfy`, `callstacks.dfy`, `guarantees.dfy`, `countdown.dfy` | the invariant, the machine of call stacks the kernel refines, what follows for every run, the virtual RTC |
| `settings.dfy`, `videopages.dfy` | what a process keeps through every run: its arguments and its RTC frequency; the page behind its view of video memory |
| `shortfalls.dfy` | where the guarantees of the process system end |
| `files.dfy` | read as a step of the process system, and a file read while other processes run |
| `system.dfy` | execute from the command line, open from the name, halt and the keyboard on console and process tables together |
| `arguments.dfy` | runs of the kernel's routines, and a program's arguments from the command line to getargs |
| `grep.dfy`, `fish.dfy`, `blink.dfy`, `blinkruns.dfy` | the sliding-buffer grep, the lockstep frame reader, the blink list and its runs |

System calls are entered through interrupt gates and are one atomic step each.  `term_read` and
`rtc_read`, which switch interrupts on and wait, are split at their wait.  A saved kernel context (stack
and base pointer) is an opaque pair; a return into it is an observation that carries it.

## Where the code stops short of what it promises

The code is modelled as it is.  Where it does less than its comments or its callers expect, the exact
condition is proved, and an input or a state reachable from power-on is given at which it shows.

- Between a switch of the display and the next tick, a program draws on the page that was right before the
  switch (`VideoPages.PageOfRun`, `VideoPages.PageElsewhere`).
- Caps lock changes the case of letters and nothing else on every key but one: with shift it takes the bar
  of the backslash key away (`KeyLaws.CapsLockIff`).
- close of a descriptor opened on a file of unknown type, in a place not used before, closes it and
  returns -1 (`System.CloseReturns`).
- A load that fails after a slot was claimed leaves the slot marked and the program page replaced
  (`Shortfalls.RefusalLeavesNothing`, `Shortfalls.FailedLoadLeaks`; `System.BadFile` is such a file).
- `execute` takes its slot on the terminal displayed, not on the one that runs
  (`Shortfalls.ExecuteCoherentIffDisplayed`, `Shortfalls.ExecuteElsewhere`), and so does the restart of
  a root shell (`Shortfalls.RootHaltKeepsIffDisplayed`, `Shortfalls.RootHaltElsewhere`).
- `halt` closes the child's descriptors through the parent's table (`Shortfalls.HaltClosesParents`,
  `Shortfalls.ParentKeepsAllIff`, `Shortfalls.ParentLosesFile`), and those of a root shell through
  the table of a process of another terminal (`Shortfalls.RootHaltClosesStrangers`,
  `Shortfalls.RootHaltSparesOthersIff`, `Shortfalls.RootHaltHitsStranger`).
- `halt` and `term_read` empty the key buffer of the terminal displayed, even when the program runs on
  another one (`Terminals.ForeignViewsKeptIff`, `Terminals.ReadAcross`, `Intrusions.ForeignExitLosesLine`,
  `Intrusions.ForeignReadTakesLine`).  Ctrl+C halts the
  process that runs, not one of the terminal at which it is typed (`System.KeyPressed`).
- The messages of `halt` for a root shell, and of `execute` when no slot is free, go to the terminal
  displayed, whichever terminal runs (`Terminals.HaltAtHomeIff`, `Terminals.RefusedAtHomeIff`,
  `Intrusions.ForeignMessageShows`).
- `term_write` hands its text to printf as a format (`Console.Console.TermWrite`): it puts the text out
  as it is exactly when no percent sign is in it (`Formats.PlainIff`, `Formats.PercentPercent`).
- `read_data` gives up on a read past the end of a file that ends at a block boundary when the next
  block number is not a known one (`FileSystem.TrapFree`, `FileSystem.OneBlockTrap`); its caller then
  moves the position back by one (`FileSystem.OpenFile.Read`, `FileSystem.FailAtStart`).  `cat` is not
  affected (`FileSystem.Cat`); `grep` stops with a message, on such a file, unless one of its reads ends
  exactly where the file does (`Grep.DoOneFile`, `Grep.Rulings`, `Grep.StopsOrNot`).
- A name of more than 32 bytes is compared with memory behind the stored name
  (`Directory.AcceptsLongName`, `Directory.LongNameAccepted`).
- A program name of exactly 32 bytes leaves no NUL in the kernel's name buffer, so what is looked up
  goes on with what lies behind it (`System.NulKeptIff`, `System.NameLookedUpIff`,
  `System.NameRunsOn`).
- The command-line scanner counts leading spaces against the length of a name, writes past its
  buffers for a name of more than 32 or arguments of more than 100 bytes, and lets a name end one
  position later when nothing follows it (`Commands.ParseRoundTrip`, `Commands.BareNameRoundTrip`,
  `Commands.LongNames`).
- A blink at location 0 takes a cell that still counts as free (`Blink.AddLinksIffNonzero`,
  `Blink.ZeroLocationLoops`), and lengths of 0 or above 0x8000 last one tick
  (`Blink.PhaseClosedForm`).

## Model

| member | source | states |
|---|---|---|
| Screen.WindowTheorem | student-distrib/lib.c:477-493 | From a clear screen, after any sequence of bytes, the 25 rows are the last 25 rows of an unbounded, eagerly wrapped 80-column layout of that sequence, blank where the layout has none yet, and the cursor is where the layout ends; the background family (lines 500-515) is proved to be the same machine |
| Screen.PutThroughWindow | student-distrib/lib.c:477-493 | Writing a byte with wrap and scroll is writing it on an endless tape whose rows never move, seen through a 25-row window |
| Screen.BackThroughWindow | student-distrib/lib.c:149-165 | Backing up is stepping back one cell on the tape and blanking it, and does nothing when that cell has scrolled off the screen |
| Screen.PutsThroughWindow | student-distrib/lib.c:450-457 | The same for any number of bytes |
| Screen.BacksThroughWindow | student-distrib/lib.c:149-165 | The same for any number of backspaces |
| Screen.FeedIsScroll | student-distrib/lib.c:78-99 | Scrolling is appending a blank row to the tape and moving the window one row down |
| Screen.PaneIsWindow | student-distrib/lib.c:16-35 | Every screen with the cursor on it is the window of some tape, so the tape laws hold from any screen |
| Screen.LayoutAppend | student-distrib/lib.c:477-493 | How one more byte extends the layout of a text: a break fills the row up (or adds a whole one at the edge), any other byte is appended |
| Screen.TapeIsLayout | student-distrib/lib.c:477-493 | From a blank tape the rows written are exactly the layout of the text, and the window starts at its 25th row from the end |
| Screen.PutsPlain | student-distrib/lib.c:477-493 | Printable bytes land in the next cells of the tape in order and change no other cell, through wraps and scrolls |
| Screen.BacksPlain | student-distrib/lib.c:149-165 | n backspaces that stay on the screen blank exactly the n cells before the cursor |
| Screen.TypeThenErase | student-distrib/lib.c:149-165 | Typing up to 24 rows of printable bytes and erasing them brings the cursor back to its tape position and blanks exactly the cells typed |
| Console.ScrollBuffer | student-distrib/lib.c:78-99 | The two copy loops move every row of characters up by one and blank the last |
| Console.PlaneWrite | student-distrib/lib.c:483-488 | A character byte changes its own cell only, an attribute byte no cell |
| Console.Console.ScrollUp | student-distrib/lib.c:78-99 | The displayed screen scrolls by one row; its cursor stays |
| Console.Console.SetScreenCursor | student-distrib/lib.c:16-35 | Cursor placement with wrap at column 80 and scroll at row 25, in mutual recursion with enter |
| Console.Console.Enter | student-distrib/lib.c:130-133 | The cursor goes to the start of the next row, scrolling from the last one |
| Console.Console.Putc | student-distrib/lib.c:477-493 | The displayed screen changes as one write of the byte |
| Console.Console.Backspace | student-distrib/lib.c:149-165 | The displayed screen changes as one backspace; at (0,0) nothing happens |
| Console.Console.Clear | student-distrib/lib.c:180-190 | Every character becomes a blank; the cursor stays |
| Console.Console.MultiScrollUp | student-distrib/lib.c:106-124 | The running terminal's buffer scrolls; no other plane changes |
| Console.Console.MultiSetScreenCursor | student-distrib/lib.c:42-54 | The background twin meets the same specification on its own buffer and cursor, and keeps every other plane and record |
| Console.Console.MultiEnter | student-distrib/lib.c:140-143 | The background twin of enter |
| Console.Console.MultiPutc | student-distrib/lib.c:500-515 | The background twin of putc: the running terminal's screen changes as one write, every other character plane and cursor is kept, although the attribute byte goes through another pointer |
| Console.Console.WriteAttribute | student-distrib/lib.c:507-510 | The attribute byte lands at the displayed cursor of whichever buffer `video_mem` is set to, and changes no character plane |
| Console.Console.TermSave | student-distrib/terminal.c:93-109 | Screen, cursor and key buffer go to the terminal's record and backing buffer, byte for byte |
| Console.Console.TermRestore | student-distrib/terminal.c:115-132 | The way back; the terminal becomes the one displayed |
| Console.Console.TermSwitch | student-distrib/terminal.c:138-143 | Switching the display away from the displayed terminal, to itself included, leaves every terminal's private view unchanged |
| Console.Console.Schedule | student-distrib/scheduling.c:56-95 | Giving the processor to another terminal changes no view, wherever it leaves the attribute pointer |
| Console.TerminatedCopy | student-distrib/terminal.c:181-188 | The copy term_write prints from is the text up to its first NUL |
| Console.LineIn | student-distrib/terminal.c:167-170 | The line handed over is the typed bytes up to the first NUL, cut off at the length asked for |
| Console.Console.BufClear | student-distrib/keyboard.c:162-168 | All 128 bytes are zero and the index is 0 |
| Console.Console.PressKey | student-distrib/keyboard.c:143-150 | A printable key is stored and echoed while fewer than 127 bytes are held, otherwise ignored |
| Console.Console.PressEnter | student-distrib/keyboard.c:94-101 | Enter is stored while there is room, sets the enter flag and starts a new line |
| Console.Console.PressBackspace | student-distrib/keyboard.c:102-108 | Backspace takes back one byte and one cell, or does nothing on an empty buffer |
| Console.Console.PressClear | student-distrib/keyboard.c:131-135 | Ctrl+L gives a clear screen with the cursor at (0,0) and keeps the line typed |
| Console.Console.Perform | student-distrib/keyboard.c:94-151 | Every key action changes the displayed terminal's view by its rule and no other view |
| Console.Console.Dispatch | student-distrib/keyboard.c:94-152 | Terminal switches change only which terminal is displayed, all other actions only the displayed view |
| Keyboard.Decode | student-distrib/keyboard.c:65-152 | The map state stays below 4, only printable codes are typed (never a NUL or a line break), and terminals switched to exist |
| Keyboard.KeyMap | student-distrib/keyboard.c:17-38 | All four maps have 59 entries and none of them yields a line break |
| KeyLaws.MapsAreRows | student-distrib/keyboard.c:17-38 | The four maps, given as the rows of an American keyboard |
| KeyLaws.KeysOfRows | student-distrib/keyboard.c:17-38 | Which scancode gives which key of which row, and that no other code gives a character |
| KeyLaws.CapsLockIff | student-distrib/keyboard.c:17-38 | Caps lock turns letters into the other case and changes no other key, with and without shift, if and only if the key is not the backslash key with shift |
| KeyLaws.ActionLaw | student-distrib/keyboard.c:94-151 | Under all modifiers exactly these codes are Enter, Backspace, a display switch, Ctrl+L, Ctrl+C and characters, and the release of a key does nothing but to modifiers |
| KeyLaws.ModifierLaw | student-distrib/keyboard.c:65-93 | After any codes shift, Ctrl and Alt are down as their last press or release says, the two shift keys being one, and caps lock is on after an odd number of presses |
| KeyLaws.ModifiersOfRun | student-distrib/keyboard.c:56-93 | Over every run of the console the modifiers are those of the codes, whichever terminals they were typed at |
| TerminalLaws.PaneCollectsOutput | student-distrib/terminal.c:179-195 | A terminal's screen is one write of all the bytes its events put out |
| TerminalLaws.EditStep | student-distrib/keyboard.c:94-151 | One key keeps the key buffer equal to the edited line followed by zeros |
| TerminalLaws.LineDiscipline | student-distrib/keyboard.c:94-168 | After any events the first idx bytes of the key buffer are the bounded push/pop fold of the keys, the rest are zero, and idx is at most 128 |
| TerminalLaws.TypingPuts | student-distrib/keyboard.c:143-150 | Printable keys that fit are echoed as one write |
| TerminalLaws.ErasingBacks | student-distrib/keyboard.c:102-108 | Backspaces over a non-empty line are that many backspaces on the screen |
| TerminalLaws.TypeThenEraseAtTerminal | student-distrib/keyboard.c:102-150 | From an empty buffer, n printable keys (n at most 127) and n backspaces leave the buffer empty, the cursor back at its tape position and exactly the typed cells blank |
| Memory.Memcpy | student-distrib/lib.c:676-713 | Byte head, double-word middle and byte tail together are one splice of the n source bytes, for every alignment and length of two different buffers |
| Memory.MoveUp | student-distrib/lib.c:722-740 | The ascending copy is right for every overlap in which the destination is not above the source |
| Memory.MoveDown | student-distrib/lib.c:722-740 | The descending copy is right for every overlap in which the destination is above the source |
| Memory.Memmove | student-distrib/lib.c:722-740 | The direction chosen makes every overlapping copy equal to a simultaneous one |
| Numbers.NumeralReadsBack | student-distrib/lib.c:525-555 | Reading back itoa's digits gives the value, all bytes are digits of the radix, and there is no leading zero |
| Numbers.NumeralLength | student-distrib/lib.c:525-555 | A value below base^k has at most k digits in every radix from base up |
| Numbers.WriteDigits | student-distrib/lib.c:543-551 | The division loop leaves the digits from the least significant up, then a NUL, and nothing else changes |
| Numbers.WriteBackwards | student-distrib/lib.c:543-551 | As a C string that is the numeral reversed |
| Numbers.SwapEnds | student-distrib/lib.c:566-572 | The swap loop reverses the bytes where they lie |
| Numbers.Strrev | student-distrib/lib.c:561-574 | The C string is reversed in place, its length and everything around it unchanged |
| Numbers.Strlen | student-distrib/lib.c:580-585 | The length is that of the NUL-terminated string |
| Numbers.Itoa | student-distrib/lib.c:525-555 | For every 32-bit value and radix 2 to 36 the buffer holds the numeral, within 33 bytes |
| Numbers.PadHex | student-distrib/lib.c:251-258 | The zeros and the numeral meet: eight hexadecimal digits from the starting index on, then a NUL |
| Commands.Scan | student-distrib/system_call.c:113-163 | The one-pass scanner computes the split at the marks of the command line, NUL-padded, and fails or overruns exactly when the split says so |
| Commands.ParseCommand | student-distrib/system_call.c:113-163 | The scanner computes the split of any command line |
| Commands.MarksUnique | student-distrib/system_call.c:133-163 | A command line has only one place for its name, its separator and its arguments |
| Commands.PartsFound | student-distrib/system_call.c:133-163 | Leading spaces, name, separators and arguments are found again where they were put |
| Commands.ParseRoundTrip | student-distrib/system_call.c:133-163 | With at least one separating space, name and arguments come back exactly, trailing spaces kept, if and only if leading spaces and name take at most 32 positions and the arguments at most 100 |
| Commands.BareNameRoundTrip | student-distrib/system_call.c:133-163 | A name and nothing more comes back exactly if and only if it fits in 32 bytes and ends within 33 positions, or is a single byte |
| Commands.Getargs | student-distrib/system_call.c:396-417 | The arguments and a NUL are copied if there are any and they fit, otherwise the result is -1 and the buffer is untouched; bytes behind the NUL never change |
| Commands.StoredArgs | student-distrib/system_call.c:233-242 | The stored argument buffer reads as the arguments typed, up to all 100 bytes |
| Kernel.Kernel.Getargs | student-distrib/system_call.c:396-417 | getargs of the process that runs: the arguments stored in its own PCB and a NUL are copied if there are any and they fit, otherwise the result is -1 and the buffer is untouched |
| Arguments.StartAndGetargs | student-distrib/system_call.c:100-417 | From the command line through the PCB to the program: execute starts it, the kernel handles any events that start no other process of its number, and then its getargs returns exactly the arguments typed whenever there are any and they fit its buffer |
| Arguments.StartProgram | student-distrib/system_call.c:100-275 | execute of a command line naming a program that can be loaded, on the displayed terminal with a slot free, starts it with the arguments typed in its PCB |
| Arguments.TypedArgsKept | student-distrib/system_call.c:233-242 | Whatever happens between the start of a program and a moment at which it runs, short of another start of its number, its PCB then holds exactly the arguments typed |
| Arguments.PerformAll | student-distrib/system_call.c:26-417 | Any run of kernel events, handled by the routines on the tables, ends in the state the step system gives |
| Settings.StartedPcb | student-distrib/system_call.c:198-242 | The PCB of a program just started holds the arguments and the caller's context given to execute, and the RTC settings its slot had |
| Settings.ArgsStep | student-distrib/system_call.c:239-242 | No step of any process changes the arguments of a process but the one that starts it, which stores those it is given |
| Settings.ArgsKept | student-distrib/system_call.c:239-242 | Over every run that does not start its number again a process keeps its arguments |
| Settings.ShellsHaveNone | student-distrib/terminal.c:63-87 | A shell the kernel starts by itself finds no arguments |
| Settings.NoStartIff | student-distrib/system_call.c:198-207 | A run starts no process of a number if and only if its trace shows no such start |
| FileSystem.AlignedNeverTrapped | student-distrib/file_system.c:132-144 | Reads of 1024 bytes at multiples of 1024 never run into the block number behind the file |
| FileSystem.Cat | syscalls/ece391cat.c:21-28 | The loop of cat ends and writes out the whole file, for every sound file |
| Directory.Strncmp | student-distrib/lib.c:753-767 | The result is 0 exactly when memory and string agree on n characters or up to a common NUL |
| Directory.NameLength | student-distrib/file_system.c:65-66 | The length of a stored name is cut off at 32, so names without a NUL are handled |
| Directory.AcceptsIsEquality | student-distrib/file_system.c:69-71 | For a name of at most 32 bytes the pair of comparisons holds exactly when the stored name is that name; prefixes and extensions are rejected |
| Directory.ReadDentryByName | student-distrib/file_system.c:53-82 | The first record that passes the comparisons is returned, none if none does |
| Directory.Lookup | student-distrib/file_system.c:53-82 | A name of at most 32 bytes resolves to the first record whose name is exactly that name; the empty name resolves to none |
| Records.ReadsBack | student-distrib/file_system.h:20-25 | Reading the record of a directory entry, laid out byte by byte, gives back exactly its name, its type and its inode number, for all values |
| Records.EveryRecord | student-distrib/file_system.h:20-25 | Any 64 bytes are the record of some entry, so what holds for records holds for every directory |
| System.FoundEntry | student-distrib/file_system.c:53-82 | In a directory of any entries the lookup of a name of 1 to 32 bytes gives the first entry of exactly that name |
| Paging.ProgramPage | student-distrib/paging.c:53-64 | With a process's directory entry in place, all 4 MB at 128 MB translate to that process's own 4 MB frame, counted from 8 MB, and the entry is present, writable, open to the user and large |
| Paging.SamePcb | student-distrib/system_call.c:506-526 | Masking any stack pointer inside kernel stack n gives the same PCB address as the formula on n, for the TSS value too |
| Paging.Separate | student-distrib/system_call.c:184-199 | Frames and kernel stacks of different processes 0 to 11 are disjoint, and no stack overlaps a frame |
| Kernel.Kernel.PcbTotalNumber | student-distrib/system_call.c:490-500 | The double loop counts the marked slots |
| Kernel.Kernel.PcbProcessNumber | student-distrib/system_call.c:465-483 | The lowest free slot of the displayed terminal is claimed, or the mask is left as it was when there is none or six processes are live |
| Kernel.Kernel.PcbMapping | student-distrib/paging.c:53-64 | One directory entry changes, inside the table for every address |
| Kernel.Kernel.DescriptorTable | student-distrib/system_call.c:220-231 | A new table has stdin and stdout open and everything else closed |
| Kernel.Kernel.PcbOfNew | student-distrib/system_call.c:201-242 | The new PCB knows its number, terminal, parent slot, caller's context, arguments and fresh descriptors |
| Kernel.Kernel.ExecuteCommand | student-distrib/system_call.c:165-275 | From the file checks on, the tables change as the execute step, refusals included |
| Kernel.Kernel.CloseAll | student-distrib/system_call.c:42-52 | The child's descriptors are all closed, and those numbered 2 and up that were open are closed in the table current by then as well |
| Kernel.Kernel.GiveUpSlot | student-distrib/system_call.c:35-52 | Slot and current process are updated before the descriptors are closed |
| Kernel.Kernel.Address | student-distrib/system_call.c:60-72 | Program page and kernel stack pointer become those of one process |
| Kernel.Kernel.PitInterrupt | student-distrib/scheduling.c:37-109 | The tables change as the PIT step: context saved, next terminal resumed or launched |
| Kernel.Kernel.RtcInterrupt | student-distrib/rtc.c:36-54 | One count off the current process of each terminal |
| Kernel.Kernel.OpenFile | student-distrib/system_call.c:325-370 | The tables change as the open step |
| Kernel.Kernel.CloseFile | student-distrib/system_call.c:376-390 | The tables change as the close step |
| Kernel.Kernel.RtcRead | student-distrib/rtc.c:110-118 | The counter is loaded with 1024 / frequency, which is never a division by zero in a reachable state |
| Kernel.Kernel.RtcWriteFreq | student-distrib/rtc.c:132-150 | The frequency is taken exactly when it passes the bit test and four bytes were written |
| Processes.AcceptedBits | student-distrib/rtc.c:143-144 | The bit test accepts exactly the powers of two from 2 to 1024 |
| Processes.AcceptedDivides | student-distrib/rtc.c:117-118 | Every accepted frequency divides 1024, so the wait is exact |
| Runs.TotalIsDepths | student-distrib/system_call.c:490-500 | The number of live processes is the sum of the depths of the three terminals |
| Runs.SlotIsNext | student-distrib/system_call.c:465-483 | The lowest free slot is the one above the current process |
| Runs.ExecuteKeeps | student-distrib/system_call.c:172-248 | A program started keeps the process-stack invariant, becomes the addressed process and changes no other PCB |
| Runs.HaltKeeps | student-distrib/system_call.c:35-92 | A halt above the root keeps the invariant and resumes the process below with the context in the halted one's PCB |
| Runs.RootHaltKeeps | student-distrib/system_call.c:54-58 | A root shell that halts on the displayed terminal is replaced by a new one in the same slot, and the invariant holds |
| Runs.SwitchKeeps | student-distrib/scheduling.c:49-108 | A tick resumes the context saved in the next terminal, keeps the invariant, saves the context of the process it leaves and changes no other PCB; which video page it maps is the matter of VideoPages.SwitchMaps |
| VideoPages.SwitchMaps | student-distrib/scheduling.c:85-95 | A tick that switches to a terminal maps the display if and only if that terminal is displayed, otherwise the terminal's own buffer, at 0xB9000 and 4 KB more for each number, in both cases present, writable and open to the user |
| VideoPages.BuffersDiffer | student-distrib/terminal.c:44-45 | Two different terminals, neither displayed, never get the same page |
| VideoPages.PageOfRun | student-distrib/scheduling.c:85-95 | From one tick up to the next, whatever the processes do and however the display is switched, the page is the right one for the terminal that runs if and only if that terminal is displayed now exactly if it was at the tick; without a display switch it is right |
| VideoPages.PageElsewhere | student-distrib/scheduling.c:85-95 | A state reachable from power-on in which the terminal that runs is displayed and its page is still its buffer |
| Runs.LaunchKeeps | student-distrib/scheduling.c:67-72 | A tick that finds the next terminal empty launches and displays its shell, keeping the invariant |
| Runs.RtcKeeps | student-distrib/rtc.c:36-49 | An RTC tick changes nothing but counters |
| Runs.RtcCounts | student-distrib/rtc.c:45-49 | It takes exactly one count off the current process of every terminal that has one |
| Runs.OpenChange | student-distrib/system_call.c:325-370 | open changes nothing but descriptors and RTC settings of the running process |
| Runs.CloseChange | student-distrib/system_call.c:376-390 | close likewise, and descriptors 0 and 1 stay open |
| Runs.RtcChange | student-distrib/rtc.c:110-150 | rtc_read and rtc_write likewise, and the frequency behind an RTC descriptor is always a valid one |
| Settings.FreqStep | student-distrib/rtc.c:84-150 | No step of any process changes the frequency of a process but its own opening of the RTC, which sets 2, and its own accepted write, which sets what was written |
| CallStacks.StepRefines | student-distrib/system_call.c:26-275 | Every enabled kernel step is the step of a machine of three call stacks with saved contexts, with the same visible outcome |
| CallStacks.ExecuteRefines | student-distrib/system_call.c:172-248 | execute pushes its caller on the terminal's stack, or is refused exactly at depth 4 or with six calls live |
| CallStacks.HaltRefines | student-distrib/system_call.c:35-92 | halt pops the stack and returns to the frame on top |
| CallStacks.RootHaltRefines | student-distrib/system_call.c:54-58 | A root halt starts the stack again with one frame |
| CallStacks.SwitchRefines | student-distrib/scheduling.c:49-108 | A tick saves this terminal's context and goes on with the one saved for the next |
| CallStacks.LaunchRefines | student-distrib/terminal.c:63-87 | A launch pushes the first frame of a terminal |
| Guarantees.RunRefines | student-distrib/system_call.c:26-275 | Over every run the kernel tables and the machine of call stacks stay in step and show the same trace of refusals, starts, resumptions and switches |
| Guarantees.FramesStay | student-distrib/system_call.c:198-217 | Frames at depth d or below stay untouched during a run that never returns from depth d |
| Guarantees.HaltReturnsToItsExecute | student-distrib/system_call.c:60-92 | However the steps of three terminals interleave, a non-root halt resumes exactly the process and saved kernel context of its matching execute, with the status given |
| Guarantees.StackDiscipline | student-distrib/system_call.c:172-242 | After every run the live slots of each terminal are exactly 0 to its current one, at most six processes are live, and each live PCB names itself, its terminal and the slot below as parent, with descriptor 0 open to read the terminal and 1 to write to it |
| Guarantees.AddressSpaceOfRun | student-distrib/system_call.c:60-72 | After every run the 128 MB page translates to the running process's own frame and is one that the program may read and write, and masking the kernel stack pointer in the TSS leads to its own PCB |
| Guarantees.OpenGivesLowest | student-distrib/system_call.c:336-369 | open gives the lowest free descriptor at position 0 and changes no other, and fails without effect exactly when the name is not found or none is free |
| Guarantees.OpenThenClose | student-distrib/system_call.c:325-390 | Closing what open gave restores the set of open descriptors |
| Guarantees.RoundRobin | student-distrib/scheduling.c:49-57 | Whatever happens in between, the k-th tick gives the processor to the k-th terminal from here, so any three consecutive ticks select each terminal once |
| Guarantees.ContextConserved | student-distrib/scheduling.c:54-107 | The third tick after a terminal was switched out resumes the process that was running there, with the stack and base pointers saved then, under every interleaving |
| Guarantees.PowerOn | student-distrib/terminal.c:22-56 | There is a state before the first tick, so the laws of runs are about something |
| Guarantees.BootInv | student-distrib/terminal.c:22-56 | The state before the first tick satisfies the invariant of all runs |
| Countdown.CounterStep | student-distrib/rtc.c:45-49 | No step but an RTC tick changes a waiting process's counter, not even the reuse of other slots |
| Countdown.CountsDown | student-distrib/rtc.c:36-49 | Over every interleaving of other terminals' steps, k RTC ticks take exactly k off a waiting process's counter |
| Countdown.ReadFrequency | student-distrib/rtc.c:110-118 | A process that can call rtc_read has a valid frequency, and its counter starts at exactly one period |
| Countdown.ReleasedOnTime | student-distrib/rtc.c:110-124 | A process that enters rtc_read at frequency f is released exactly when 1024 / f RTC ticks have gone by |
| Settings.SetThenRead | student-distrib/rtc.c:84-150 | A process opens the RTC, which sets it to 2, or writes it a power of two f; then anything happens but another setting of its own; then it reads, and is released exactly when 1024 / f RTC ticks have gone by, whatever the other terminals do |
| Grep.ScanBuffer | syscalls/ece391grep.c:28-57 | The inner loop deals with every finished line and leaves the unfinished one, which holds no newline, at the front with room behind it |
| Grep.HandleLine | syscalls/ece391grep.c:40-52 | One line is printed if and only if it contains the pattern |
| Grep.SearchLine | syscalls/ece391grep.c:42-51 | The search finds the pattern exactly when it occurs in the line |
| Grep.StartsWith | syscalls/ece391support.c:35-46 | The comparison holds exactly when the pattern occurs at that position |
| Grep.CopyDown | syscalls/ece391support.c:14-17 | The overlapping copy moves the string down with its NUL and changes nothing behind it |
| Grep.LineDone | syscalls/ece391grep.c:40-52 | A finished line splits off the front of what is still to be searched |
| Grep.LastDone | syscalls/ece391grep.c:40-56 | A last line without a newline is searched too, once |
| Grep.Moved | syscalls/ece391grep.c:33-38 | Moving the unfinished line loses no text and leaves no stale newline |
| Grep.FullBufferHasNewline | syscalls/ece391grep.c:30-39 | A full buffer holds a newline, so the program never gets stuck or splits a line |
| Grep.MatchingFirst | syscalls/ece391grep.c:42-51 | The matching lines of a text are those of its first line followed by those of the rest |
| Grep.ReportReadsBack | syscalls/ece391grep.c:45-48 | What is printed, read line by line, is one line for each line reported, with the file's name and a colon in front, and ends with a newline |
| Text.JoinLines | syscalls/ece391grep.c:31-32 | The lines of a text join back to it and hold no newline |
| Text.LinesUnique | syscalls/ece391grep.c:31-32 | No other list of newline-free lines joins to the text |
| Fish.AddFrames | fish/fish.c:78-148 | For any two files, whatever their line counts, line lengths and final newlines, it ends and issues exactly one add per row and column at which the two space-padded frames are not both blank, with both characters, in order |
| Fish.AddsAreCells | fish/fish.c:78-148 | These adds come, in reading order, from different cells, each with its row and column on the screen and both frames' characters, and a cell has one if and only if it is not blank in both frames |
| Fish.CellPlace | fish/fish.c:125 | A cell of the frame lands in its own row, 40 columns to the right |
| Fish.AddRow | fish/fish.c:99-130 | One row: the adds of all columns of the longer line, with both readers left at its end |
| Fish.AddCell | fish/fish.c:122-127 | One cell: no add for two blanks, otherwise location and characters with a blank for the shorter line |
| Fish.Advance | fish/fish.c:102-116 | A reader takes the next character of its line and then stays at the newline, or at the end of the file |
| Fish.TextStep | fish/fish.c:102-108 | The character read is the line's next one, its newline, or the end of the text |
| Fish.JoinAt | fish/fish.c:102-108 | Where each character of each line lies in the text |
| Blink.AddFailsIff | fish/blink.S:131-145 | An add fails exactly when the location is at least 2000 or all 2000 cells are in use |
| Blink.AddLinks | fish/blink.S:147-162 | An add at a non-zero location puts the started node in front of a well-linked list |
| Blink.AddLinksIffNonzero | fish/fish.c:160-170 | A successful add leaves some well-linked list if and only if its location is not 0 |
| Blink.ZeroLocationLoops | fish/fish.c:160-170 | Two adds at location 0 make a cell its own successor |
| Blink.RemoveLinks | fish/blink.S:206-217 | Unlinking the k-th cell leaves a well-linked list of the others in the same order, and the cell free |
| Blink.PoolConserved | fish/fish.c:160-175 | List length plus free cells is always 2000 |
| Blink.BlinkList.Malloc | fish/fish.c:160-170 | The first free cell, or NULL if there is none |
| Blink.BlinkList.Insert | fish/blink.S:105-184 | Pool, head and result change as specified for every location, 0 included |
| Blink.BlinkList.Add | fish/blink.S:105-184 | The list gains the node at the front, on and with a full countdown, or the add fails exactly when the location is at least 2000 or the pool is full and changes nothing |
| Blink.BlinkList.FindHelper | fish/blink.S:351-379 | The newest node with the location is found, NULL if there is none |
| Blink.BlinkList.FindPrevious | fish/blink.S:206-212 | The pointer-to-pointer walk ends at the link that leads to the cell |
| Blink.BlinkList.Unlink | fish/blink.S:214-223 | Exactly that node leaves the list |
| Blink.BlinkList.Remove | fish/blink.S:187-237 | The newest node with the location goes, all others stay in order; -1 and no change if there is none |
| Blink.BlinkList.Sync | fish/blink.S:240-300 | On success the newest node at the target keeps location and characters and has the lengths, countdown and status that the newest node at the source had; every other node, the source included, is unchanged; it fails exactly when one of the two is missing, and changes nothing |
| Blink.BlinkList.TickCell | fish/blink.S:64-86 | One node ticks: 16-bit decrement, toggle and reload when the result is not positive as a signed word |
| Blink.BlinkList.Tasklet | fish/blink.S:49-99 | Every node of the list ticks exactly once, none is lost or moved, and the list stays well linked |
| Blink.BlinkList.constructor | fish/fish.c:160-170 | An empty list over 2000 free cells |
| Blink.AddApplies | fish/blink.S:105-184 | On the pool as on the list: a successful add puts the started node in front, a failed one changes nothing, and it fails exactly when it must |
| BlinkRuns.FindsTheTop | fish/blink.S:351-379 | A lookup finds the most recently added live node of a location, and none exactly when none is live |
| BlinkRuns.TopRemoved | fish/blink.S:187-237 | A remove uncovers the node added before at that location and touches no other location |
| BlinkRuns.StackStep | fish/blink.S:105-300 | One operation, seen from one location, is a push, a pop or nothing |
| BlinkRuns.StacksOfRun | fish/blink.S:105-300 | Over any run of adds, removes, syncs and ticks on a list of nodes each location is a stack of its own adds and removes, independent of all other locations, of syncs and of ticks |
| BlinkRuns.PerformAll | fish/blink.S:49-300 | Any run of the routines on the pool, with adds at non-zero locations, keeps the list well linked, ends in the list these operations give, and leaves at each location the stack of its own accepted adds and removes |
| BlinkRuns.AddThenWait | fish/blink.S:49-184 | An add and any number of runs of the tasklet: the new node is in front with its characters, in the phase its lengths give, and every older node has ticked as often |
| BlinkRuns.SyncThenWait | fish/blink.S:49-300 | A sync and any number of runs of the tasklet: the node at the target shows its own characters in the phase the old source would have come to, and every other node is where it would have been without the sync |
| Blink.PhaseClosedForm | fish/blink.S:60-90 | For all 16-bit lengths, n ticks after an add the node is n modulo the period ticks into its period, lengths of 0 or above 0x8000 counting as one tick |
| Blink.PhaseOrdinary | fish/blink.S:60-90 | For lengths 1 to 32767: on with countdown on - m for m = n mod (on + off) below on, then off with countdown on + off - m |
| Blink.SyncedStaysInPhase | fish/blink.S:267-275 | Two synced nodes have equal status and countdown at every later tick |
| Blink.TicksAllAt | fish/blink.S:49-99 | k runs of the tasklet give each node exactly its own k ticks |
| Blink.FollowOrder | fish/blink.S:351-379 | Following m links from the k-th cell of the list leads to the (k + m)-th, and to NULL behind the last |
| Blink.Acyclic | fish/blink.S:351-379 | Following the links from a cell of the list, however far, never leads back to it; from the head every cell is reached, then NULL |
| Blink.FreedIsFound | fish/fish.c:160-175 | A cell given back is what the next allocation finds, unless one before it is free |
| FileSystem.ContentsAt | student-distrib/file_system.c:120-147 | Byte i of the concatenated blocks of a sound file is the byte its block numbers lead to |
| FileSystem.WalkBlocks | student-distrib/file_system.c:115-152 | For any inode whose first block number is good: the walk returns min(length, size - offset), or 0 from the end on, unless it steps into an unknown block number before that, when it returns -1; exactly the bytes up to there are copied and no other byte changes |
| FileSystem.ReadData | student-distrib/file_system.c:115-152 | The same with the null-buffer check in front |
| FileSystem.LoadStopsIff | student-distrib/system_call.c:194 | Loading a whole file fails if and only if the number of one of its blocks, the first aside, is not known |
| FileSystem.SoundWalk | student-distrib/file_system.c:129-151 | On a file whose own block numbers are good, a read delivers its slice of the flat file, and returns -1 exactly when it goes past the end of a file that ends at a block boundary with an unknown number behind |
| FileSystem.TrapFree | student-distrib/file_system.c:132-144 | read_data keeps its promise on all offsets and lengths of such a file if and only if it does not end so |
| FileSystem.OneBlockTrap | student-distrib/file_system.c:132-144 | A file of one block on a disk of one block, and the read of one byte more than there are, fail |
| FileSystem.OpenFile.Read | student-distrib/file_system.c:171-185 | For any position and byte count: a read delivers the bytes at the position and moves the position by its result, which is their number, or -1 exactly when read_data gives up; from a position below 0 it gives nothing, and a count below 0 asks for more than any file has |
| FileSystem.ReadInChunks | student-distrib/file_system.c:171-185 | Calls of file_read with any sizes concatenate to one read of their sum; none of them fails if and only if the file ends safely or no chunk straddles its end |
| FileSystem.ReadWholeThenNothing | student-distrib/file_system.c:171-185 | Calls that ask for enough give the whole file, and all calls after them give nothing |
| FileSystem.FailAtStart | student-distrib/file_system.c:180-182 | A read that fails at the start of a file leaves the position at -1, and the next read returns 0 |
| Directory.AcceptsLongName | student-distrib/file_system.c:69-71 | A name of more than 32 bytes is accepted exactly when the stored name fills its field and the bytes behind it in memory continue it |
| Directory.LongNameAccepted | student-distrib/file_system.c:69-71 | A directory in which a name that no record has is found |
| Numbers.PrintUnsigned | student-distrib/lib.c:246-248 | %x and %u hand the numeral to puts |
| Numbers.PrintHexPadded | student-distrib/lib.c:243-262 | %#x hands to puts the numeral behind zeros up to eight digits, from the place in the buffer where both meet |
| Numbers.PaddedReadsBack | student-distrib/lib.c:249-259 | %#x always emits exactly 8 hexadecimal digits whose value is the argument |
| Numbers.PrintSigned | student-distrib/lib.c:275-288 | %d hands to puts the signed numeral, of the most negative word too |
| Numbers.SignedReadsBack | student-distrib/lib.c:275-288 | The signed numeral reads back as the value |
| Formats.Convert | student-distrib/lib.c:225-304 | Every conversion, number signs before it, unknown letters and a missing letter, puts out what the format machine says |
| Formats.PlainFormat | student-distrib/lib.c:218-314 | A format without a percent sign puts itself out and the scan ends at its NUL |
| Formats.PercentPercent | student-distrib/lib.c:228-231 | The text %% goes out as one percent sign, so term_write does not put out every text as it is |
| Formats.PrintsItems | student-distrib/lib.c:214-316 | A format made of text and any of %%, %x, %#x, %u, %d, %c and %s puts out piece by piece the text, a percent sign, a numeral that reads back as the word in radix 16, eight hexadecimal digits of the word, a numeral in radix 10, a signed one, the low byte and the string, each taking the next word of the stack |
| Console.Piece | student-distrib/lib.c:218-313 | One turn of the scan takes one byte, or one conversion with its number signs and its stack word |
| Console.Console.Puts | student-distrib/lib.c:450-457 | The displayed screen changes as one write of the string |
| Console.Console.MultiPuts | student-distrib/lib.c:464-471 | The background twin of puts |
| Console.Console.Printf | student-distrib/lib.c:209-316 | For every format whose scan ends, the displayed screen gains what the format puts out, conversions included |
| Console.Console.MultiPrintf | student-distrib/lib.c:337-444 | The same in the background, keeping every other plane and record |
| Console.Console.PrintNow | student-distrib/terminal.c:190-193 | Whichever family is chosen, the running terminal's view gains what the format puts out and no other view changes |
| Console.Console.TermWrite | student-distrib/terminal.c:179-195 | The running terminal's view gains what printf makes of the text up to its first NUL, every other view is kept, and the number of bytes is returned |
| Formats.PlainIff | student-distrib/terminal.c:179-195 | A text term_write is given is put out as it is, whatever lies behind it and whatever conversions find, if and only if no percent sign is in it |
| Console.Console.TermRead | student-distrib/terminal.c:158-173 | After its wait the read answers the Enter of the running terminal, and hands over and empties the one key buffer there is, that of the displayed terminal; nothing else changes |
| Terminals.ReadAcross | student-distrib/terminal.c:158-173 | A read by a program of another terminal than the one displayed answers its own terminal's Enter and leaves its line, and empties the displayed terminal's line and leaves its Enter |
| Console.Console.ExitProgram | student-distrib/system_call.c:32-33 | halt empties the key buffer of the displayed terminal, whichever terminal the program runs on |
| Console.Console.Announce | student-distrib/system_call.c:54-57 | A kernel message without percent signs goes to the displayed screen as it is, whichever terminal runs, and no other view changes |
| Console.Console.TermFirstDisplay | student-distrib/terminal.c:79-82 | The first display of a terminal keeps all three views |
| Console.Console.Launch | student-distrib/terminal.c:63-85 | A launch by the timer makes the terminal the running and the displayed one and keeps all three views |
| Console.Console.KeyboardInterrupt | student-distrib/keyboard.c:56-154 | The handler up to its last line is one key step of the machine of three private terminals; the result tells whether Ctrl+C asks for a halt |
| System.KeyPressed | student-distrib/keyboard.c:56-156 | The whole handler on console and process tables: after Ctrl+C the process that runs is halted with status 1, with the messages of a root halt on the display; otherwise the tables only learn which terminal is displayed |
| System.HaltRunning | student-distrib/system_call.c:26-92 | halt on console and process tables: the displayed key buffer is emptied, for a root shell the message goes to the display, and a second one when its restart finds no slot; the tables change as the halt step |
| System.HaltPrivateIff | student-distrib/system_call.c:26-92 | A whole halt reaches no terminal but its own if and only if its terminal is displayed, or nothing has been typed at the one that is and no root shell ends |
| Console.Console.constructor | student-distrib/terminal.c:18-57 | Three blank terminals with empty key buffers, none displayed |
| Terminals.Virtualisation | student-distrib/terminal.c:93-195 | Over every interleaving of keys, display switches, output, reads, exits, kernel messages, launches and scheduling, each terminal's screen, key buffer and enter flag are what the events addressed to it would have made of them alone |
| Terminals.ForeignViewsKeptIff | student-distrib/system_call.c:32-33 | An exit or a read keeps the views of all terminals but the running one if and only if that one is displayed, or nothing has been typed at the one that is |
| Terminals.AtHomeIff | student-distrib/system_call.c:54-57 | An exit, a read or a kernel message reaches no terminal but the running one if and only if that one is displayed, or the message is empty, or nothing has been typed at the one displayed |
| Terminals.PrivateRun | student-distrib/terminal.c:158-195 | In a run in which all exits, reads and kernel messages meet this condition, each terminal's view is what its own keys and its own processes have made of it |
| Terminals.HaltAtHomeIff | student-distrib/system_call.c:32-57 | A halt, messages included, reaches no terminal but its own if and only if its terminal is displayed, or nothing has been typed at the one that is and no message is printed |
| Terminals.HaltShown | student-distrib/system_call.c:32-57 | A halt empties the displayed key buffer, puts the messages of a root halt on the displayed screen, leaves an Enter not yet read as it is, and changes nothing at the other terminals |
| Terminals.RefusedAtHomeIff | student-distrib/system_call.c:178-181 | An execute that finds no slot reaches no terminal but its own if and only if its terminal is displayed |
| Intrusions.ForeignExitLosesLine | student-distrib/system_call.c:32-33 | From start-up: a key is typed at terminal 0, a program of terminal 1 exits, and terminal 0's line is gone |
| Intrusions.ForeignReadTakesLine | student-distrib/terminal.c:158-173 | From start-up: Enter is typed at terminal 1, later a key at terminal 0, and the read of terminal 1's program gets what was typed at terminal 0, which is gone there, while its own line stays |
| Intrusions.ForeignMessageShows | student-distrib/system_call.c:54-57 | From start-up, with nothing typed: the shell of terminal 1 halts while terminal 0 is displayed, and the end of the message is on terminal 0's screen |
| TerminalLaws.ScreenOfRun | student-distrib/terminal.c:179-195 | A terminal on which a text has been put, and at which nothing is erased, shows after any run the last 25 rows of the layout of exactly the bytes printed at it, by its processes or as kernel messages, and typed at it since it was last cleared with Ctrl+L, with that text in front if it has not been |
| TerminalLaws.ScreenFromStart | student-distrib/terminal.c:18-87 | The same from term_init on, for all three terminals, their launches included |
| TerminalLaws.LineOfRun | student-distrib/keyboard.c:56-168 | Over runs of the whole console the key buffer is the bounded push/pop fold of the keys typed at the terminal and of the clearings by reads and exits; in a private run these are its own; and an Enter waits for its process exactly as the fold over accepted Enters and reads says |
| TerminalLaws.AwaitedIff | student-distrib/keyboard.c:94-101 | By that fold an Enter waits if and only if one was accepted, with fewer than 128 bytes held, that no read has taken since, or one waited before and none has |
| TerminalLaws.EnterFlag | student-distrib/terminal.c:164-165 | The enter flag of a terminal is that fold over any events |
| TerminalLaws.KeystrokesDecide | student-distrib/terminal.c:158-195 | Output that comes in between matters neither to the line nor to the Enter |
| TerminalLaws.TypedLineIsRead | student-distrib/terminal.c:158-173 | After a line of at most 127 bytes and Enter typed into an empty buffer, in any run, the read of the terminal's process is enabled and finds exactly that line and a newline; afterwards the buffer is empty and no Enter waits |
| TerminalLaws.TapeOfRun | student-distrib/keyboard.c:94-151 | The screen law without exception: over any run a terminal's screen is the window on the tape on which its output and the keys accepted are written, a backspace with something in the line being one step back and Ctrl+L a fresh tape |
| Sessions.KeyedIsRun | student-distrib/keyboard.c:56-154 | Codes without a display switch do at the displayed terminal, and only there, what they mean one after the other |
| Sessions.TypeCodes | student-distrib/keyboard.c:56-154 | Any codes, by the interrupt handler on the real buffers, are the run of these keys |
| Sessions.TypeAndRead | student-distrib/terminal.c:158-173 | Codes that type a line of at most 127 characters and Enter at the displayed terminal whose process runs: term_read, whose wait is over, hands over exactly that line and a newline, cut off at the length asked for, and leaves an empty buffer and no Enter |
| Sessions.KeysTypeLine | student-distrib/keyboard.c:17-22 | Every line of characters that keys give without modifiers is typed by the codes of its keys |
| System.FoundByName | student-distrib/file_system.c:53-82 | For a name of 1 to 32 bytes the lookup finds the first record with exactly that name |
| System.LookUp | student-distrib/file_system.c:53-82 | read_dentry_by_name returns the first record it accepts |
| System.NulKeptIff | student-distrib/system_call.c:120-149 | The 32-byte name buffer keeps a NUL if and only if the name is shorter than 32 bytes |
| System.NameLookedUpIff | student-distrib/system_call.c:165 | What execute looks up is the name typed if and only if it is shorter than 32 bytes or a NUL happens to lie behind the buffer |
| System.NameRunsOn | student-distrib/system_call.c:165 | A name of 32 bytes for which 33 bytes are looked up |
| Commands.LongNames | student-distrib/system_call.c:133-163 | A name of 33 bytes overruns its buffer, and is refused when a space comes before it |
| System.CheckFile | student-distrib/system_call.c:165-194 | Name, magic number and load decide between a missing file, one that is not executable, one with unknown blocks, and a program; the program page then holds that file from its first byte to its last |
| System.ImageByName | student-distrib/system_call.c:165-194 | In a directory of any entries: missing exactly without an entry of that name, otherwise judged by the inode recorded in the first such entry: not executable exactly if it does not start with 0x7F, E, L, F, and otherwise loaded exactly if all its blocks are known |
| System.RefusalShown | student-distrib/system_call.c:178-181 | The display gains the message of execute exactly when no slot was found; no other terminal, and nothing else, changes |
| System.ExecuteLine | student-distrib/system_call.c:100-275 | From the command line to the process tables and the console: the scanner, the lookup and the file checks give the execute step its outcome and its arguments, a file that can be loaded is in the program page, and the display gains the message exactly when no slot was found |
| System.ProgramByName | student-distrib/system_call.c:133-165 | Within the limits the file looked up is the first one of exactly the name typed, and the arguments stored are those typed |
| System.OpenName | student-distrib/system_call.c:325-370 | From the name to the descriptor: the lookup gives the open step type and inode of the record it finds |
| System.OpenByName | student-distrib/system_call.c:325-370 | In a directory of any entries open gives the least free descriptor, at position 0, for the first entry of exactly this name: by the type recorded, on the RTC at 2 Hz, on the directory, or on the file of the inode number recorded, all other descriptors unchanged; or it fails without effect exactly when there is no such name or no free descriptor |
| System.CloseReturns | student-distrib/system_call.c:376-390 | close of an open descriptor from 2 up closes it and returns 0, but -1 exactly when it has the error table; of any other it returns -1 and has no effect |
| Kernel.Kernel.HaltProcess | student-distrib/system_call.c:35-92 | In every reachable state the tables change as the halt step; a root shell is restarted, and where that is refused halt runs on into an unmapped address |
| Guarantees.BootFrom | student-distrib/terminal.c:63-87 | From any stage of start-up the remaining PIT ticks launch the remaining shells, RTC ticks in between changing nothing |
| Guarantees.BootSequence | student-distrib/terminal.c:63-87 | From boot, with RTC interrupts coming in at any moments, three PIT ticks start the shells 4, 8 and 0 in this order and leave terminal 0 running and displayed |
| Guarantees.OnlyTimersBoot | student-distrib/scheduling.c:66-72 | Up to the third tick every run consists of timer interrupts, so every run starts like this |
| Guarantees.FirstProgramReturns | student-distrib/terminal.c:63-87 | From power-on through any start-up, a program started by shell 0, full rounds of the scheduler and its halt: shell 0 goes on with the context it had |
| Shortfalls.RefusalLeavesNothing | student-distrib/system_call.c:172-194 | A refused execute leaves the kernel, the slot mask in particular, as it was if and only if it is not a load that fails after a slot was claimed |
| Shortfalls.FailedLoadLeaks | student-distrib/system_call.c:186-194 | A state reachable from power-on in which a failed load loses a slot and the program page of the shell |
| System.BadFile | student-distrib/system_call.c:165-194 | A directory and a file for which the checks of execute come to a failed load |
| Shortfalls.ExecuteCoherentIffDisplayed | student-distrib/system_call.c:209-248 | After a started execute the process addressed is the one scheduled if and only if it was called on the displayed terminal |
| Shortfalls.ExecuteElsewhere | student-distrib/system_call.c:209-248 | A state reachable from power-on in which it is not |
| Shortfalls.RootHaltKeepsIffDisplayed | student-distrib/system_call.c:54-58 | The halt of a root shell leaves the tables in order if and only if its terminal is displayed |
| Shortfalls.RootHaltElsewhere | student-distrib/system_call.c:54-58 | A state reachable from power-on in which it does not |
| Shortfalls.HaltClosesParents | student-distrib/system_call.c:36-52 | A halt above the root closes exactly those descriptors of the parent, from 2 up, whose numbers the child had open; no third process is touched |
| Shortfalls.ParentKeepsAllIff | student-distrib/system_call.c:36-52 | The parent comes back unchanged if and only if it shares no open descriptor number from 2 up with the child |
| Shortfalls.ParentLosesFile | student-distrib/system_call.c:36-52 | A state reachable from power-on in which a shell loses its open file to the halt of its child |
| Shortfalls.RootHaltClosesStrangers | student-distrib/system_call.c:36-52 | The halt of a root shell, on whatever terminal, closes descriptors through the PCB that slot -1 leads to: none that is used for terminal 0, that of the last slot of the terminal before for the others; no process but that one, its own and the one it is restarted as is touched |
| Shortfalls.RestartedWasFree | student-distrib/system_call.c:54-58 | The process a root shell is restarted as is put into its own slot, or into one that was free |
| Shortfalls.RootHaltSparesOthersIff | student-distrib/system_call.c:36-52 | The halt of a root shell, on whatever terminal, leaves every live process of the other terminals as it was if and only if it is that of terminal 0, or that slot is free, or its process shares no open descriptor number from 2 up with the shell |
| Shortfalls.RootHaltHitsStranger | student-distrib/system_call.c:36-52 | A state reachable from power-on in which the halt of terminal 1's shell closes a file of the fourth process of terminal 0 |
| Grep.Refill | syscalls/ece391grep.c:22-27 | A refill continues the text behind the unfinished line up to 1024 bytes from its start, and the buffer then holds a newline or the end of the file; it fails exactly when the file does not end safely and ends inside the bytes asked for |
| Grep.DoOneFile | syscalls/ece391grep.c:20-66 | For a sound file without NULs with lines of at most 1023 bytes, a non-empty pattern and a buffer without stale newlines, it ends. No read fails if and only if the file ends safely or some refill ends exactly where it does; then it has printed exactly the lines that contain the pattern, in order and once each; otherwise the first of them and the message |
| Grep.ReadOn | syscalls/ece391grep.c:22-39 | After a refill and the scan of the buffer, the next refill ends 1024 bytes behind the start of the line the last one ended in |
| Grep.Rulings | syscalls/ece391grep.c:22-27 | Of two files of 4096 bytes the one with lines of 64 bytes meets the condition and the one with lines of 100 bytes does not |
| Grep.StopsOrNot | syscalls/ece391grep.c:20-66 | On these two files, with an unknown block number behind them, grep ends without failure and stops with the message |
| Files.ReadFile | student-distrib/system_call.c:281-297 | read on a file: a bad number, a null buffer or a closed descriptor give -1 and change nothing; otherwise it is the read step of the process tables and the bytes of the file at the position of the descriptor are in the buffer |
| Kernel.Kernel.FileAdvance | student-distrib/file_system.c:180-182 | The position of the descriptor moves by the result of read_data |
| Runs.FileReadChange | student-distrib/file_system.c:180-182 | A read changes nothing but a descriptor of the running process |
| Files.DescriptorStep | student-distrib/system_call.c:36-52 | In every step of every process an open descriptor of a live process from 2 up is closed exactly when its process closes it or halts, or a halt of the process above finds the same number open there; otherwise it is what it was, or moved by its own process's read |
| Files.ReadsAreLinked | student-distrib/file_system.c:171-185 | Over every run that does not close it, each read of a descriptor starts where the one before has left it, whatever other processes do |
| Files.LinkedReads | student-distrib/file_system.c:171-185 | Such reads of one file give its pieces one after the other; none fails if and only if the file ends safely or none straddles its end |
| Files.ReadOverRun | student-distrib/file_system.c:171-185 | A process that reads while others run gets, in all its reads together, one piece of the file, from where its descriptor stood to where it stands, and no read fails exactly under that condition |
| Files.OpenThenRead | student-distrib/system_call.c:281-370 | From the name to the bytes: reads on the descriptor open gave for a name, once they have asked for enough, have given exactly the contents of the file of the inode number recorded in the first entry of exactly that name, in whatever pieces and whatever other processes do |
| Files.HelloInTwoPieces | student-distrib/system_call.c:281-297 | A run from a state reachable from power-on in which a shell reads a file in two pieces with the other terminals in between |

## Left out

- Console.Console.TermWrite: takes what conversions find on the stack and in memory as parameters, and the memory behind the text, where a final `%` sends the scan, to hold a NUL where it looks for one; Console.Console.Printf and Console.Console.MultiPrintf likewise.
- Console.Console.TermRead: does not model keys that come in between the copying of the line and the clearing of the buffer.
- Console.Console.MultiPutc: does not model the colour of a cell; attributes may land in another terminal's buffer, and the screen laws are about characters.
- Console.Console.KeyboardInterrupt: ends before the halt that Ctrl+C asks for; System.KeyPressed includes it.
- Files.ReadFile: covers descriptors open on files; reads of the RTC and of the terminal have steps of their own, and directory reads are not modelled. The buffer is taken to have room for what is read.
- TerminalLaws.ScreenOfRun: does not cover terminals at which something was erased; TerminalLaws.TapeOfRun covers all.
- Grep.DoOneFile: does not model lines of more than 1023 bytes, NULs in the file, or newlines that an uninitialised stack buffer may hold, nor the failures of open and close.
- Fish.AddFrames: does not model failing reads; on and off lengths are the constant 15 and are not part of an add.
- Kernel.Kernel.HaltProcess: covers the states reachable in runs; the restart of a root shell is taken to find the shell.
- Kernel.Kernel.PitInterrupt: the shell it launches is taken to be found, and a terminal without a process to be one never launched.
- Guarantees.StackDiscipline: runs have execute and root halts on the displayed terminal and no load that fails after a slot was claimed, because these break the tables, as `shortfalls.dfy` shows.
- System.ExecuteLine: reads the program into a page of its own before the slot is claimed; its entry point is not modelled. A first block number that the disk does not know, which the code does not check, is excluded.
- BlinkRuns.PerformAll: has adds at non-zero locations only; Blink.AddLinksIffNonzero says why.
- Blink.BlinkList.Add: is about non-zero locations; Blink.BlinkList.Insert covers all.
- Blink.BlinkList.Sync: does not model the character displayed at once, nor do the other blink operations.
- Terminal-switch keys before all three shells run, and descriptor calls of the first shells before then.
- Assembly stack switching, iret, TLB flushes, port I/O and the hardware cursor.
- VideoPages.PageOfRun: does not model vidmap, which maps the display for its caller, nor writes of user programs to video memory.
- dir_read, num_file_read, rtc_set_freq, memset and mp1_ioctl_find are not modelled.
- strcpy of the directory entry's name into the caller's copy.
- Boot, multiboot, descriptor tables, interrupt controllers, exceptions and the text their handlers print, signals, the mouse, the Linux emulation layer and the demo programs.
