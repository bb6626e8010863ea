# A small x86 kernel and its programs, modelled and proved

The repository is a teaching kernel for 32-bit x86 with a few user programs. This project models the
parts of it that carry state and proves what they promise. The model follows the code: arrays that the
code fills in place are arrays, globals and structures are fields of classes, loops are loops. Each
method is proved against a function on plain values, and the properties of whole runs are lemmas about
those functions. Where code and comments disagree the code is followed.

| file | what it models |
|---|---|
| Bytes, Arithmetic, Counting | bytes, C strings, division by a variable divisor, finite sets |
| MemoryRoutines | memset, memcpy, memmove, instruction by instruction |
| CStrings, Numerals | strlen, puts, strrev, itoa, the `%#x` conversion |
| Screen | the 80x25 console with scrolling and backspace, against an unbounded log of cells |
| Keyboard, Editing, Typing | the line editor, terminal reads and writes; runs of keys and writes; what plain scan codes type |
| Blink, BlinkPool | the blinking characters of `fish`: automaton and display; the linked list inside the static pool |
| FileSystem, DiskLayout | the read-only file system on a raw disk image; such an image byte by byte |
| Grep | the sliding-buffer line matcher |
| Paging, PagingWords | page directories and tables, address translation as in section 4.3 of the Intel SDM, Volume 3A; the same entries as words in memory |
| Buffers | where the kernel's stores for a program go: present addresses and their places in memory |
| KernelSpec, Kernel | the system calls as functions on kernel states; the code that carries them out |
| KernelRuns | every run of system calls and program stores, and what it keeps |
| KernelIsolation, KernelContainment, KernelRestoration | what steps and runs leave alone, exactly when, and what a parent finds again |
| KernelFiles, KernelDelivery | programs and files; what one descriptor delivers over a run |
| KernelLaws | what programs get from the calls, in plain numbers |
| KernelExample | concrete machines: one to which these apply, and one for each failure below |

Conventions. Addresses are natural numbers; 32-bit and 16-bit wrap-around is written out where values can
wrap (file positions, blink countdowns, unsigned counts). A page-directory entry is a record of the parts
in which the two layouts of the C union divide the 32-bit word, so that writing one layout and reading
the other is exact. CR3 is the number of the page directory it points to. The kernel's data, the disk
image among them, lie in the page from 4 to 8 MB; they are modelled as structured fields, which describe
that page as long as nothing has been stored in it on behalf of a program. A state records whether that is
so (it is intact); a step is contained if, by its addresses and lengths, the kernel stores nothing there for
the program. What a C local happens to hold
before it is written, the answers of devices, and what Ctrl+1/2/3 print are parameters.

What turned out not to hold as one would expect, each with its exact condition:

- A read that runs past the end of a file that fills its last block fails unless the unused next entry
  of the block table happens to be a block number (`FileSystems.WellFormedReads`,
  `FileSystems.FullLastBlockFails`, `KernelFiles.ReadFailsExactly`).
- `read` and `getargs` test the caller's buffer only for NULL and store through it in kernel mode; `write` to
  stdout copies as many bytes as it is told into the line buffer of 1024. Whatever the memory holds, a step
  leaves the kernel's page and the frames of the processes before it as they are if and only if it is
  contained (`KernelContainment.SparesOthersExactly`), and so does a run (`KernelContainment.RunSparesExactly`);
  this is the exact condition under which the memory of waiting parents is restored
  (`KernelRestoration.ParentIsRestored`). Other steps exist in every state with a waiting parent
  (`KernelContainment.StdinReadHits`, `KernelExample.ReadReachesParent`), and in every state with a process
  (`KernelContainment.LongWriteHits`, `KernelExample.WriteOverrunsLineBuffer`).
- A read that fails moves the file position back by one, a read of nothing among them; at the start of a file
  every later read then reports its end (`KernelFiles.FailedReadMovesBack`, `KernelFiles.ReadOfNothingAtStart`).
  What is delivered on a descriptor is the file up to its position exactly as long as no read on it fails
  (`KernelDelivery.AdvancesExactly`).
- `execute` does not undo the raised process counter when the load fails (`KernelRuns.FailedLoadIsNotRolledBack`);
  that takes a missing block (`KernelRuns.LoadFailsOnMissingBlock`, `KernelExample.LoadCanFail`), which a
  good disk does not have.
- `getargs` compares with the argument length of the command taken apart last, also after the program has
  ended (`KernelRestoration.GetArgsAfterChild`, `KernelExample.GetArgsChangesItsAnswer`).
- The tab key makes two cells erasable that are not in the line, and a Ctrl+1/2/3 report takes the line
  off the screen (`Editing.StepIsCoherent`, `Editing.TabLosesACharacter`, `Editing.ReportDisplacesLine`).
- A terminal write while a line is being typed prints that line's tail and NULs too
  (`Editing.WritePrintsItsBytes`).
- Adding a blinking character at location 0 succeeds and destroys the list
  (`BlinkPools.Driver.IoctlAdd`, `BlinkPools.ZeroLocationMakesCycle`).
- SYNC always draws the off character (`Blinks.SyncDisplay`), and ADD and ticks draw over other elements at the
  same location; the exact condition for every operation is `Blinks.DrawsRight` (`Blinks.StepDisplays`).
- grep prints a matching line as it is if and only if it has at most 1024 bytes (`Grep.PiecesAreLines`).
- A descriptor is in use without an operation table if its directory entry has an unknown type
  (`KernelFiles.OpenedHasOperations`, `KernelExample.UnknownTypeHasNoOperations`).

## Model

| member | source | states |
|---|---|---|
| MemoryRoutines.Memset | student-distrib/lib.c:428-465 | for every alignment and length exactly the n bytes from s on become the low byte of c |
| MemoryRoutines.Memcpy | student-distrib/lib.c:529-569 | for every alignment the destination gets the source as it was before the call, all other bytes stay; also for overlaps with a lower destination |
| MemoryRoutines.Memmove | student-distrib/lib.c:581-602 | for every overlap, in both directions, the result is that of copying from a snapshot |
| CStrings.Strlen | student-distrib/lib.c:409-417 | the length of the C string in memory |
| CStrings.Puts | student-distrib/lib.c:289-299 | exactly the characters before the NUL go out (also ece391_fdputs) |
| Numerals.PutDigits | student-distrib/lib.c:363-368 | the digit loop leaves the digits of the number, lowest first |
| Numerals.Strrev | student-distrib/lib.c:384-400 | the C string is reversed in place, nothing else changes |
| Numerals.Itoa | student-distrib/lib.c:342-375 | the buffer holds the numeral of the value and a NUL, nothing else changes (ece391_itoa is the same code) |
| Numerals.NumeralReadsBack | student-distrib/lib.c:342-375 | parsing the text in the radix gives the number back; no leading zeros; for every radix 2 to 36 |
| Numerals.NumeralIsUnique | student-distrib/lib.c:342-375 | no other text without leading zeros has this value |
| Numerals.PadZeros | student-distrib/lib.c:216-220 | the field in front of the digits is filled with zeros up to index 8 |
| Numerals.FormatHex8 | student-distrib/lib.c:206-225 | `%#x` prints exactly eight hexadecimal digits with the value of the number |
| Numerals.DigitTable | student-distrib/lib.c:345 | the digits are those of the source's table |
| Screens.Screen.constructor | student-distrib/lib.c:98-101 | a blank screen shows the empty log |
| Screens.Screen.Clear | student-distrib/lib.c:114-125 | whatever was there, the screen then shows the empty log |
| Screens.Screen.ScrollDown | student-distrib/lib.c:26-44 | every row moves up by one, the last becomes blank |
| Screens.Screen.Putc | student-distrib/lib.c:310-331 | the screen keeps showing the log, grown by the character or filled up to the next row; one row scrolls off when the cursor leaves the screen |
| Screens.Screen.BackSpace | student-distrib/lib.c:73-89 | the last cell of the log goes, also across row starts; nothing happens at the top left corner |
| Screens.Screen.Puts | student-distrib/lib.c:289-299 | the log grows character by character |
| Screens.LayoutGrows | student-distrib/lib.c:310-331 | line-by-line layout and cell-by-cell growth agree on every stream |
| Screens.LogOfStream | student-distrib/lib.c:310-331 | after any stream on a cleared screen the log is the layout of the stream and exactly the rows above the last 25 have gone |
| Screens.CellsOfPut | student-distrib/lib.c:310-331 | newline and carriage return fill the row with blanks, other characters take one cell |
| Screens.ScreenIsTailOfStream | student-distrib/lib.c:26-44 | the video memory equals the last 25 rows of the layout of the whole stream, blank from the cursor on, cursor inside 80x25 |
| Keyboards.Keyboard.constructor | student-distrib/keyboard.c:37-53 | empty buffers and counters, nothing to read |
| Keyboards.Keyboard.ClearBuf | student-distrib/keyboard.c:164-172 | all 1024 bytes of the buffer are zero and its counter is 0 |
| Keyboards.Keyboard.ClearStorageBuf | student-distrib/keyboard.c:181-189 | the stored line is empty |
| Keyboards.Keyboard.ProcessKey | student-distrib/keyboard.c:269-478 | every scan code changes modifiers, line, erasable count, stored line, readable flag and screen as the editor on values does |
| Keyboards.Keyboard.ClearAll | student-distrib/keyboard.c:298-305 | Ctrl+L empties screen, line and stored line and leaves the readable flag |
| Keyboards.Keyboard.TypeChar | student-distrib/keyboard.c:440-470 | a typed character is echoed, appended to the line and erasable |
| Keyboards.Keyboard.TypeTab | student-distrib/keyboard.c:424-430 | two blanks that are erasable and not in the line |
| Keyboards.Keyboard.FinishLine | student-distrib/keyboard.c:381-397 | Enter makes the line and a newline readable and starts an empty line on a new row |
| Keyboards.Keyboard.RubOut | student-distrib/keyboard.c:400-420 | backspace takes one cell and one character, only while something is erasable |
| Keyboards.Keyboard.TerminalWrite | student-distrib/keyboard.c:245-258 | for all bytes that fit the buffer: prints them overlaid on the line being typed, and what lies behind the buffer when both together do not fit; returns the number of characters printed, drops the line |
| Keyboards.Keyboard.TerminalRead | student-distrib/keyboard.c:219-237 | returns the first n bytes of the stored line and empties it |
| Editing.StepIsCoherent | student-distrib/keyboard.c:297-471 | one event keeps "erasable count = line length <= 128 and the line stands before the cursor" if and only if it is no tab and no report that displaces the line |
| Editing.RunIsCoherent | student-distrib/keyboard.c:297-471 | a run keeps this throughout if and only if all its events are harmless where they occur, through wraps, scrolls and writes |
| Editing.PlainIsHarmless | student-distrib/keyboard.c:361-373 | keys other than tab are harmless; a report is while no line is being typed |
| Editing.ReportDisplacesLine | student-distrib/files.c:337 | a report, whose text ends in a newline, displaces every line whose last character is not blank |
| Editing.LineIsOnScreen | student-distrib/lib.c:73-89 | then the cells of the video memory before the cursor spell the line |
| Editing.TabLosesACharacter | student-distrib/keyboard.c:424-430 | 'a', tab, backspace: an empty line, and an 'a' on the screen |
| Editing.StepEdits | student-distrib/keyboard.c:400-470 | a harmless key edits the line as an editor without screen or counters would |
| Editing.RunEdits | student-distrib/keyboard.c:381-470 | so does every harmless key run |
| Editing.ReadReturnsEditedLine | student-distrib/keyboard.c:219-231 | after any harmless key run and Enter a read of n bytes returns the first n bytes of the edited line, at most 128 characters, and its newline |
| Editing.WritePrintsItsBytes | student-distrib/keyboard.c:245-258 | a write prints its own bytes if and only if no line is being typed |
| Typing.SourceTablesAreOk | student-distrib/keyboard.c:59-152 | the four tables of the source translate three keys only to backspace, tab and newline, and none to carriage return |
| Typing.FlagsByCodes | student-distrib/keyboard.c:269-294 | after any scan codes Ctrl or a shift is down if and only if the last press or release code of that key was the press, and caps lock is on if and only if its code came an odd number of times |
| Typing.FlagsOfRun | student-distrib/keyboard.c:269-294 | the flags of any key run depend on its codes alone |
| Typing.TypedFrom | student-distrib/keyboard.c:440-470 | after any key run the next text key is echoed and appended from the table that caps lock and shift select, as the codes tell |
| Typing.OtherKeys | student-distrib/keyboard.c:297-439 | every other scan code by its number: Ctrl with L, 1, 2, 3, backspace, tab, Enter, and those that type nothing |
| Typing.ReleasedShiftTypesPlain | student-distrib/keyboard.c:287-292 | shift pressed and released, then a letter: the plain table |
| Typing.WriteOverLine | student-distrib/keyboard.c:245-258 | a write over a line prints its bytes, the tail of the line, NULs up to the end of the buffer and what lies behind it |
| Typing.ReadableByEvents | student-distrib/keyboard.c:219-235 | in every run of keys, writes and reads a read can return if and only if Enter has been pressed since the last one |
| Blinks.FirstAt | fish/blink.S:351-379 | the first element at a location, or none |
| Blinks.TickMovesPhase | fish/blink.S:58-90 | one tick moves a character one step on in its period, and from the end to the start |
| Blinks.TickAges | fish/blink.S:58-90 | a tick moves a character one tick on in its on/off alternation, for all 16-bit lengths and signed wrap-around |
| Blinks.OnAfterTicks | fish/blink.S:58-90 | t ticks after ADD a character is on if and only if t mod (on + off) < on; lengths 0 and above 32768 last one tick |
| Blinks.SyncedStayEqual | fish/blink.S:267-275 | after SYNC status and countdown stay equal for every number of ticks |
| Blinks.StepHasAges | fish/blink.S:105-300 | every operation keeps every listed character at its age; SYNC hands over the age |
| Blinks.RunKeepsAges | fish/blink.S:49-379 | so does every run of ADD, REMOVE, FIND, SYNC and ticks |
| Blinks.RunShowsPhases | fish/blink.S:49-379 | in every run from an empty list each character is on exactly when its age says so |
| Blinks.RunKeepsOrigins | fish/blink.S:105-300 | in every run each element has the location and characters of the ADD that put it there, and the lengths of that ADD or of the one behind the element it was last synchronised with |
| Blinks.FindAfterAdd | fish/blink.S:120-153 | a successful ADD, then FIND: the user's structure, on, at the start of its first period |
| Blinks.AddSucceedsExactly | fish/blink.S:131-147 | ADD is refused if and only if the location is 2000 or more or the list has 2000 elements |
| Blinks.TickVideoAt | fish/blink.S:68-86 | a tick redraws exactly the toggling characters and touches no other position |
| Blinks.TickKeepsDisplay | fish/blink.S:49-99 | ticks keep the display in agreement with every status |
| Blinks.AddKeepsDisplay | fish/blink.S:164-170 | so does ADD at a location not yet in the list |
| Blinks.SyncDisplay | fish/blink.S:277-286 | after SYNC the display agrees if and only if the copied status is off or both characters are the same |
| Blinks.TickDisplays | fish/blink.S:49-99 | with several elements at one location too: a tick keeps display and status in agreement if and only if elements at one location agree afterwards |
| Blinks.StepDisplays | fish/blink.S:49-379 | one operation of any kind keeps the agreement if and only if, where it draws, all elements there want to show the same |
| Blinks.RunDisplays | fish/blink.S:49-379 | a run keeps it throughout if and only if each operation does where it occurs |
| Blinks.DistinctDrawRight | fish/blink.S:49-184 | with distinct locations every tick does, and every ADD at a new one |
| Blinks.RunShowsUserCharacters | fish/blink.S:49-379 | after a run in which every operation draws right the screen shows, at each element's location, the user's on or off character according to its age |
| Blinks.SyncShowsOffCharacter | fish/blink.S:281-285 | two characters just added and synchronised: the target is on and shows its off character |
| BlinkPools.FirstFree | fish/fish.c:161-171 | the lowest slot with location 0, or NULL when there is none |
| BlinkPools.LinkedIsChain | fish/blink.S:159-162 | linking a free slot at the head keeps an acyclic chain of exactly the slots in use and prepends to the sequence |
| BlinkPools.UnlinkedIsChain | fish/blink.S:214-222 | unlinking and zeroing a node keeps such a chain and deletes that element |
| BlinkPools.FullPool | fish/fish.c:161-171 | no slot is free if and only if the list has 2000 elements |
| BlinkPools.ZeroLocationBreaksChain | fish/fish.c:165 | after an ADD at location 0 no chain describes the pool |
| BlinkPools.ZeroLocationMakesCycle | fish/fish.c:165 | the next ADD links that slot to itself |
| BlinkPools.Driver.constructor | fish/fish.c:28 | a zeroed pool is an empty list |
| BlinkPools.Driver.Malloc | fish/fish.c:161-171 | returns the lowest free slot |
| BlinkPools.Driver.FindHelper | fish/blink.S:351-379 | the walk terminates at the node of the first element with this location, or at NULL |
| BlinkPools.Driver.IoctlAdd | fish/blink.S:105-184 | fails only off the screen or with a full pool; otherwise prepends and draws, and the list stays valid if and only if the location is not 0 |
| BlinkPools.Driver.FindPrev | fish/blink.S:206-212 | the walk from the head terminates at the pointer that leads to the node |
| BlinkPools.Driver.Unlink | fish/blink.S:214-223 | the node's element leaves the sequence, the slot is free again |
| BlinkPools.Driver.IoctlRemove | fish/blink.S:187-237 | deletes the first element with the location, or fails and changes nothing |
| BlinkPools.Driver.IoctlFind | fish/blink.S:302-349 | returns the first element with the location, or fails |
| BlinkPools.Driver.IoctlSync | fish/blink.S:240-300 | copies lengths, countdown and status between the first elements, or fails and changes nothing |
| BlinkPools.Driver.TickBlink | fish/blink.S:64-86 | one node: countdown, and at its end display and status |
| BlinkPools.Driver.TickNode | fish/blink.S:60-90 | one round of the loop over the list |
| BlinkPools.Driver.Tasklet | fish/blink.S:49-99 | all nodes tick once, in list order, and the list keeps its shape |
| FileSystems.RegionsDisjoint | student-distrib/files.c:20-28 | boot block, inodes and data blocks are disjoint, and so are any two inodes and any two blocks |
| FileSystems.WellFormedReads | student-distrib/files.c:115-143 | on a well-formed inode a read fails if and only if it crosses the end of a file that fills its last block and the next table entry is no block |
| FileSystems.FullLastBlockFails | student-distrib/files.c:117-125 | an image on which this happens |
| FileSystems.LookupIsExact | student-distrib/files.c:41-65 | lookup succeeds if and only if some entry has exactly this name |
| FileSystems.Strncmp | student-distrib/lib.c:618-636 | zero if and only if the strings agree up to n characters or their ends |
| FileSystems.CompareByLongerLength | student-distrib/files.c:51-57 | comparing as many characters as the longer name has is equality, never a prefix match |
| DiskLayout.LookupOfLayout | student-distrib/files.h:22-27 | on an image laid out byte by byte with any list of files, looking up a name leads to its type and inode number; no other name is found |
| DiskLayout.ContentsOfLayout | student-distrib/files.h:42-45 | the inode is well formed and its contents are the file's data, whatever the order of the blocks |
| DiskLayout.ListingOfLayout | student-distrib/files.c:224-261 | reading the directory lists the names in order |
| DiskLayout.TwoFilesRead | student-distrib/files.h:22-45 | two files with exchanged inodes and shuffled blocks, found and read |
| FileSystems.FileSystem.constructor | student-distrib/files.c:14-31 | the driver on a well-formed image |
| FileSystems.FileSystem.Init | student-distrib/files.c:14-31 | fails on an empty module; otherwise counts and region addresses are those of the image |
| FileSystems.FileSystem.NameMatches | student-distrib/files.c:51-57 | the comparison of lookup is equality of names |
| FileSystems.FileSystem.ReadDentryByName | student-distrib/files.c:41-65 | the first entry with exactly this name is copied, or FAIL |
| FileSystems.FileSystem.CopyDentry | student-distrib/files.c:300-304 | name, type and inode of an entry |
| FileSystems.FileSystem.BlockExists | student-distrib/files.c:122-125 | whether a block-table entry is a block number, read inside the image |
| FileSystems.FileSystem.CopyBlocks | student-distrib/files.c:114-143 | the byte loop across blocks delivers the file's bytes until the length, the end of the file or a missing block |
| FileSystems.FileSystem.ReadData | student-distrib/files.c:96-144 | returns 0 at or past the end, FAIL exactly when a block it looks at does not exist, else min(length, rest); the buffer then holds exactly that slice of the flat file, on FAIL what comes before the missing block, and is otherwise untouched |
| FileSystems.StoredBounds | student-distrib/files.c:114-143 | a read stores no more than was asked for or is left, and exactly the bytes it reports when it does not fail |
| FileSystems.StoredMore | student-distrib/files.c:117-134 | as long as all blocks so far exist, the next byte is stored too |
| FileSystems.StoredAtMissing | student-distrib/files.c:122-125 | at a missing block the read fails with the bytes before it stored |
| FileSystems.NamedBounds | student-distrib/files.c:169-174 | the same for a read by name |
| FileSystems.LoadBounds | student-distrib/files.c:152-162 | a load that does not fail stores the whole file |
| FileSystems.FileSystem.FileRead | student-distrib/files.c:169-174 | the same by name; FAIL for length 0 and unknown names |
| FileSystems.FileSystem.FileLoad | student-distrib/files.c:152-162 | the whole file by name |
| FileSystems.FileSystem.DirectoryRead | student-distrib/files.c:224-261 | the next name padded with NULs to 33 bytes; after the last one 0 and start over |
| FileSystems.ListingIsComplete | student-distrib/files.c:243-260 | from counter 0 the reads list every entry once in order, then report the end and start over |
| Grep.UnselectedLine | syscalls/ece391grep.c:28-57 | a line without the pattern prints nothing however it is cut at the buffer size |
| Grep.ShortLine | syscalls/ece391grep.c:28-57 | a line of at most 1024 bytes stays whole |
| Grep.PiecesAreLines | syscalls/ece391grep.c:9-66 | what the buffer selects is exactly the lines containing the pattern, in order, once each, if and only if all such lines have at most 1024 bytes |
| Grep.RecordText | syscalls/ece391grep.c:44-48 | a printed record is name, colon, line, newline |
| Grep.LongLineIsCut | syscalls/ece391grep.c:22-57 | a line of 1025 letters for which it fails |
| Grep.Strncmp | syscalls/ece391support.c:35-46 | zero if and only if the pattern is a prefix of the C string |
| Grep.SearchLine | syscalls/ece391grep.c:40-51 | found if and only if the nonempty pattern occurs in the line |
| Grep.FindEnd | syscalls/ece391grep.c:30-32 | the first newline of the buffered bytes, or their end |
| Grep.MoveDown | syscalls/ece391support.c:14-17 | the string arrives at the front of the same buffer |
| Grep.Carry | syscalls/ece391grep.c:33-38 | an unfinished line is at the front, and file and buffer still hold the same rest |
| Grep.SearchAndPrint | syscalls/ece391grep.c:40-51 | prints name, colon, line and newline if and only if the line contains the pattern |
| Grep.LineIsPiece | syscalls/ece391grep.c:30-39 | the line processed is the whole next piece of the file, whatever stale bytes follow in the buffer |
| Grep.LineReported | syscalls/ece391grep.c:40-52 | its record, then the records of what follows |
| Grep.ScanBuffer | syscalls/ece391grep.c:28-57 | the inner loop prints the records of the finished lines and keeps the rest |
| Grep.Read | syscalls/ece391grep.c:22 | a full read into the buffer; -1 for an empty request |
| Grep.ReadMore | syscalls/ece391grep.c:22-27 | the request is never empty; buffer and file together hold the same rest |
| Grep.GrepFile | syscalls/ece391grep.c:20-60 | terminates; prints the records of the whole file, or a prefix of them when a read fails |
| Grep.DoOneFile | syscalls/ece391grep.c:9-66 | status and complete output, error messages included |
| Paging.WalkIsSpace | student-distrib/mypaging.c:130-246 | for every 32-bit address: the program window leads to the frame, the kernel to itself for the supervisor only, the two video pages to video memory, everything else faults |
| Paging.InitShape | student-distrib/mypaging.c:17-117 | after init_paging the first directory maps the kernel and the video page only |
| Paging.CreateShape | student-distrib/mypaging.c:130-246 | a new process has its own frame and no video mapping, whatever the entries held before, reserved bits included |
| Paging.MapVideoShape | student-distrib/systemcall.c:457-491 | vidmap adds the video page and changes nothing else of the address space |
| Paging.OthersKeepShape | student-distrib/mypaging.c:130-246 | the other directories keep their address spaces |
| Paging.UserAccess | student-distrib/mypaging.c:205-220 | user accesses reach the own frame or the video page, never the kernel or another frame |
| PagingWords.WordsOfCreate | student-distrib/mypaging.c:130-246 | all 1024 words of a new process's directory and of its page table, in numbers: page table, kernel page, frame 4 MB (k + 1), everything else absent |
| PagingWords.WordsOfMapVideo | student-distrib/systemcall.c:463-491 | vidmap writes one word of the directory; every entry of its table names video memory, only the first is present |
| PagingWords.WordsOfInit | student-distrib/mypaging.c:17-91 | all words of the first directory and its page table, in numbers |
| Paging.PageUnit.constructor | student-distrib/x86_desc.h:188-193 | zeroed tables with clear reserved bits |
| Paging.PageUnit.LoadCr3 | student-distrib/systemcall.c:245-252 | changes no table |
| Paging.PageUnit.FillShellTable | student-distrib/mypaging.c:138-152 | only the page of video memory is present |
| Paging.PageUnit.InitPaging | student-distrib/mypaging.c:17-117 | rewrites the first directory and the page table as stated by Init, all others stay |
| Paging.PageUnit.CreatePaging | student-distrib/mypaging.c:130-246 | rewrites the directory of the process and the page table, all others stay; nothing for a process above 6 |
| Paging.PageUnit.MapVideoPage | student-distrib/systemcall.c:457-491 | rewrites one entry of the process's directory and the video table |
| KernelSpec.MaskInStack | student-distrib/systemcall.c:141 | masking any kernel stack pointer of process k gives k's control block |
| KernelSpec.LoadFits | student-distrib/systemcall.c:118 | a program's file stays inside its frame |
| KernelRuns.LoadFailsOnMissingBlock | student-distrib/files.c:152-162 | a load fails if and only if the inode or a block of the file does not exist |
| KernelRuns.LoadSucceeds | student-distrib/files.c:152-162 | on a good disk a load is complete |
| KernelRuns.RefusedExecuteChangesNothing | student-distrib/systemcall.c:59-123 | on a good disk execute returns -1 only before it has changed anything but arg_size |
| KernelRuns.ExecuteSucceedsExactly | student-distrib/systemcall.c:59-123 | on a good disk the program starts, at the entry point of its file, if and only if there is room for a process and the file's checks pass |
| KernelLaws.CommandRoundTrip | student-distrib/systemcall.c:76-90 | a command made of name, space and arguments is taken apart into these, if and only if they have at most 31 and 1023 characters |
| KernelLaws.NulEndsName | student-distrib/systemcall.c:76-79 | a NUL before the space ends the name, not the search |
| KernelLaws.EntryByContents | student-distrib/systemcall.c:92-103 | a file of at least 28 bytes is refused unless it begins with 7f 45 4c 46, and is entered at the number in its bytes 24 to 27, lowest first |
| KernelLaws.NothingToExecute | student-distrib/systemcall.c:59-74 | without room, command or file: refused |
| KernelLaws.ProgramByAddress | student-distrib/systemcall.c:117-118 | byte i of the program is at 0x08048000 + i for the process and at 4 MB (k + 1) + 0x48000 + i in memory |
| KernelLaws.NewDescriptors | student-distrib/systemcall.c:147-169 | the eight descriptors of a new process |
| KernelLaws.FirstEntry | student-distrib/systemcall.c:106-110 | the entry of the first program is remembered, no later one changes it |
| KernelLaws.ShellRestarts | student-distrib/systemcall.c:224-243 | after any contained run, when the first process halts it is started where it was started first |
| KernelLaws.StackNumbers | student-distrib/systemcall.c:172-253 | kernel stack and control block of process k by their addresses |
| KernelRuns.FailedLoadIsNotRolledBack | student-distrib/systemcall.c:106-123 | on any disk: past the checks it is refused exactly when the load fails, with counter and CR3 left changed |
| KernelRuns.NewPcb | student-distrib/systemcall.c:105-178 | the new process has its pid, its parent found through the stack pointer, and the saved registers; no other control block changes |
| KernelRuns.ExecuteKeepsInv | student-distrib/systemcall.c:54-204 | execute keeps the invariant of all processes |
| KernelRuns.HaltKeepsInv | student-distrib/systemcall.c:217-267 | halt keeps it, changes no block and no table, and hands back the saved registers; for the shell it clears the screen, the only memory it changes, and starts the shell again |
| Buffers.SpaceIsPhys | student-distrib/mypaging.c:130-246 | the present addresses are those a process's directory maps, each at the place the model stores to |
| Buffers.PhysStaysInside | student-distrib/mypaging.c:205-220 | present addresses lead to the own frame, the video page or the kernel's page, the last only from itself |
| Buffers.StoreAllIsWritten | student-distrib/files.c:114-141 | stores to consecutive places leave exactly the data there |
| Buffers.StoreAllSpares | student-distrib/files.c:114-141 | and nothing changes where no byte has its place |
| Buffers.StoreAllStores | student-distrib/files.c:114-141 | a byte is where the last store to its place put it |
| Buffers.StoredInWindow | student-distrib/mypaging.c:205-220 | data for the program window arrive in one stretch of the frame |
| KernelRuns.StoredKeepsInv | student-distrib/systemcall.c:279-302 | a store of the kernel for a program keeps the invariant if it spares the kernel's page; otherwise, by definition, the state is marked as not intact |
| KernelRuns.ReadKeepsInv | student-distrib/systemcall.c:279-302 | so does read, at any address that does not fault |
| KernelRuns.GetArgsKeepsInv | student-distrib/systemcall.c:440-449 | so does getargs |
| KernelRuns.WriteKeepsInv | student-distrib/systemcall.c:314-332 | so does write, of any length and on any descriptor with a write operation |
| KernelSpec.OverrunOnlyThere | student-distrib/keyboard.c:249-252 | a write of more than 1024 bytes puts the rest behind the line buffer |
| KernelSpec.ShownOnlyThere | student-distrib/lib.c:310-331 | printing changes the 4000 bytes of the screen and no other memory |
| KernelLaws.ClearedCells | student-distrib/lib.c:114-125 | a cleared screen is 2000 blanks on attribute 7 from 0xB8000 on |
| KernelLaws.WriteOfAtMost1024 | student-distrib/keyboard.c:245-258 | a write to stdout is contained if and only if it has at most 1024 bytes, and then changes the screen only |
| KernelRuns.OpenKeepsInv | student-distrib/systemcall.c:343-413 | open keeps it: in use if and only if there is an operation table, and the name leads to the recorded inode |
| KernelRuns.CloseKeepsInv | student-distrib/systemcall.c:417-438 | close keeps it |
| KernelRuns.VidmapKeepsInv | student-distrib/systemcall.c:451-494 | vidmap keeps it for every address, the last ones of the window included |
| KernelLaws.VidmapGivesScreen | student-distrib/systemcall.c:451-494 | for every address in the window the answer is 0 and the four bytes there, lowest first, are the pointer 0x08400000, whose 4096 bytes lead to 0xB8000 |
| KernelLaws.VidmapRefuses | student-distrib/systemcall.c:453-456 | for any other address the answer is -1 and nothing changes |
| KernelRuns.StepKeepsInv | student-distrib/systemcall.c:54-494 | every contained system call and every store of a program keeps it; others mark the state |
| KernelRuns.RunKeepsInv | student-distrib/systemcall.c:54-494 | so does every contained run; others end in a marked state |
| KernelRuns.SomeProcessStays | student-distrib/systemcall.c:224-243 | once there is a process there always is one |
| KernelRuns.TranslationIsPhys | student-distrib/mypaging.c:130-246 | in every state of a run CR3 leads every 32-bit address where the model's stores for programs go, or faults |
| KernelRuns.ReachableStates | student-distrib/systemcall.c:59-172 | in every contained run from boot: at most six processes, pid k and parent k - 1, CR3 and esp0 of the last one, and the complete address space of each |
| KernelRuns.SlotsAreDisjoint | student-distrib/systemcall.c:127-172 | control block and stack of a process share an 8 KB slot of the kernel page, slots are disjoint, and every stack pointer masks to its own block |
| KernelIsolation.StoreStaysInside | student-distrib/mypaging.c:205-220 | a program's store changes its own frame or the video page, nothing else |
| KernelIsolation.StoresStayInside | student-distrib/mypaging.c:205-220 | the kernel's stores for a program change the caller's frame, the video page and, unless spared, the kernel's page, nothing else |
| KernelIsolation.ReadStaysInside | student-distrib/systemcall.c:279-302 | so does a read at any address |
| KernelContainment.SparesOthersExactly | student-distrib/systemcall.c:279-332 | whatever the memory holds, a step leaves the kernel's page and the frames before it as they are: if and only if it is contained |
| KernelContainment.UncontainedStores | student-distrib/keyboard.c:249-252 | a step that is not contained leaves a certain byte in the kernel's page, whatever was there |
| KernelContainment.MemIsApart | student-distrib/systemcall.c:54-494 | apart from the memory of programs itself, no system call depends on it |
| KernelContainment.RunSparesExactly | student-distrib/systemcall.c:54-494 | whatever the memory holds at its start, a run leaves the kernel's page and the frames of all that wait as they are: if and only if every step is contained |
| KernelContainment.StdinReadHits | student-distrib/systemcall.c:284 | wherever a parent waits there is a read that is not contained and changes the parent's control block |
| KernelContainment.LongWriteHits | student-distrib/keyboard.c:249-252 | in every state with a process a write of 2000 bytes from its own window is not contained and puts its bytes behind the line buffer |
| KernelIsolation.ExecuteKeepsBelow | student-distrib/systemcall.c:105-178 | starting a program changes nothing of the processes there are |
| KernelIsolation.StepKeepsBelow | student-distrib/systemcall.c:54-494 | a contained step of the last process changes nothing of those before it, nor the kernel's page |
| KernelIsolation.RunKeepsBelow | student-distrib/systemcall.c:54-494 | nor does any contained run of a child and its descendants, and the child's saved registers stay |
| KernelRestoration.SameSpace | student-distrib/systemcall.c:244-252 | the address spaces below are the same |
| KernelRestoration.ParentIsRestored | student-distrib/systemcall.c:217-262 | a child's run leaves the kernel's page and all waiting frames as they are, whatever the memory holds, if and only if it is contained; then its halt returns the parent to its counter, CR3, esp0, stack, control block, directory, address space and memory |
| KernelRestoration.ArgSizeIsLastParsed | student-distrib/systemcall.c:83-90 | after any run the global argument size is the argument length of the command taken apart last, if any was |
| KernelRestoration.GetArgsAfterChild | student-distrib/systemcall.c:440-449 | after the child's halt the argument size is that of the last command of the child's lifetime, and getargs answers as before if and only if the count passes the comparison with it as with the old one |
| KernelFiles.ProgramIsLoaded | student-distrib/systemcall.c:114-123 | byte i of the file is where address 0x08048000 + i of the new process leads, in its frame, and no other byte changes |
| KernelFiles.NewProgramGetsItsArguments | student-distrib/systemcall.c:440-449 | a new program finds exactly the text behind the command name as a C string; a shorter buffer is refused |
| KernelFiles.FileDescriptors | student-distrib/systemcall.c:402-406 | in every state of a run the stored name of an open file leads to the recorded inode |
| KernelFiles.ReadFailsExactly | student-distrib/systemcall.c:279-301 | a read of an open file fails if and only if it asks for nothing or crosses the end of a full last block without a valid next entry |
| KernelFiles.ReadAdvances | student-distrib/systemcall.c:279-301 | otherwise it delivers the next min(n, rest) bytes and the position moves by them |
| KernelFiles.LoopStep | student-distrib/systemcall.c:279-301 | as a system call: those bytes go to the caller's memory, only the position changes besides, and the next read is possible |
| KernelFiles.ReadLoopIsContents | student-distrib/systemcall.c:279-301 | reads of any positive sizes put consecutive pieces one behind the other into memory; position = bytes delivered; the end comes after at most as many reads as bytes are left; nothing else changes |
| KernelFiles.WholeFileIsRead | student-distrib/systemcall.c:279-413 | open and such a loop put the whole file into the memory of the process |
| KernelFiles.FailedReadMovesBack | student-distrib/systemcall.c:299-300 | a failing read moves the position back by one, from 0 to the largest number |
| KernelFiles.ReadOfNothingAtStart | student-distrib/systemcall.c:299-300 | a read of nothing at the start of a file: every later read reports the end |
| KernelDelivery.StepAdvances | student-distrib/systemcall.c:279-438 | any contained step, of the process or of a descendant, moves an open descriptor by exactly the bytes of the file it delivers on it: if and only if it is no failing read on it and does not close it |
| KernelDelivery.AdvancesExactly | student-distrib/systemcall.c:279-301 | at every moment of a contained run this is so if and only if no read on the descriptor has failed and nobody has closed it |
| KernelDelivery.DeliveredIsContents | student-distrib/systemcall.c:279-301 | then, with other descriptors and whole children in between, the bytes delivered on one descriptor are together the file up to its position |
| KernelFiles.OpenIsLowest | student-distrib/systemcall.c:367-411 | open returns the lowest free descriptor of 2 to 7; -1 if and only if the name is unknown or all six are taken |
| KernelFiles.OpenedHasOperations | student-distrib/systemcall.c:393-402 | the new descriptor has an operation table if and only if its entry's type is known |
| KernelLaws.OpenEnters | student-distrib/systemcall.c:393-406 | type 0 gets the clock's operations, 1 those of directories, 2 those of files; with the name, the inode of the entry, and position 0 |
| KernelLaws.OpenStandard | student-distrib/systemcall.c:349-363 | names beginning with "stdin" or "stdou" open nothing new and answer 0 |
| KernelLaws.CloseFrees | student-distrib/systemcall.c:417-438 | close answers 0 if and only if the descriptor is one of 2 to 7 and open, at whatever position, frees it and touches no other |
| KernelLaws.NegativeCountReadsRest | student-distrib/systemcall.c:279-301 | a negative count reads all that is left, or fails as a read past the end does |
| KernelLaws.Counts | student-distrib/systemcall.c:279-301 | a count that is not negative stands for itself, a negative one for 2^32 more |
| KernelLaws.NoDescriptor | student-distrib/systemcall.c:284-317 | read and write answer -1 and do nothing for numbers that are no open descriptor and for NULL |
| KernelLaws.WriteAnswers | student-distrib/systemcall.c:310-332 | what write answers for stdout, clock, files and directories; only for stdout it changes anything |
| KernelFiles.CloseUndoesOpen | student-distrib/systemcall.c:417-438 | close right after open restores the whole state |
| KernelFiles.OpenedFileIsAtStart | student-distrib/systemcall.c:402-406 | a file just opened is at position 0 and ready for sequential reading |
| KernelExample.ProgramStarts | student-distrib/systemcall.c:54-204 | a booted machine with a disk of one program, which execute starts: the statements about runs are not empty |
| KernelExample.ReadReachesParent | student-distrib/systemcall.c:284 | a child on this machine whose one-byte read changes its parent's slot |
| KernelExample.WriteOverrunsLineBuffer | student-distrib/systemcall.c:314-332 | the first process on this machine writes 2000 bytes, and the byte behind the line buffer is its own |
| KernelExample.GetArgsChangesItsAnswer | student-distrib/systemcall.c:440-449 | a parent granted its one byte of arguments before its child ran and refused it afterwards |
| KernelExample.LoadCanFail | student-distrib/systemcall.c:106-123 | a program that passes all checks and has no second block: refused, with one process counted |
| KernelExample.UnknownTypeHasNoOperations | student-distrib/systemcall.c:393-402 | the first process started from a disk with an entry of type 3 opens it: in use, without operations |
| Kernels.Kernel.constructor | student-distrib/kernel.c:176-183 | the state after boot |
| Kernels.Kernel.Parse | student-distrib/systemcall.c:76-90 | the C string made of the bytes before the first space, a NUL among them included, and the C string behind it |
| Kernels.Kernel.ReadLocal | student-distrib/systemcall.c:515-520 | a short read leaves the tail of the local |
| Kernels.Kernel.FindEntry | student-distrib/systemcall.c:92-103 | magic number and entry point |
| Kernels.Kernel.InitFiles | student-distrib/systemcall.c:147-169 | stdin and stdout open, six descriptors closed |
| Kernels.Kernel.LoadProgram | student-distrib/systemcall.c:105-123 | counter, paging and CR3 of the new process, and the file in its window |
| Kernels.Kernel.SetUpPcb | student-distrib/systemcall.c:127-178 | the new control block and esp0 |
| Kernels.Kernel.Launch | student-distrib/systemcall.c:105-178 | both, or the state of a failed load |
| Kernels.Kernel.Execute | student-distrib/systemcall.c:54-204 | state and outcome for every command, refused ones included |
| Kernels.Kernel.Halt | student-distrib/systemcall.c:217-267 | state and return for the shell and for other processes |
| Kernels.Kernel.SetFd | student-distrib/systemcall.c:402-406 | one descriptor of the current process changes, nothing else |
| Kernels.Kernel.Close | student-distrib/systemcall.c:417-438 | state and result for every descriptor number |
| Kernels.Kernel.GetArgs | student-distrib/systemcall.c:440-449 | refused, or the argument text padded to n bytes wherever the caller's address leads; nothing else changes |
| Kernels.Kernel.StoreByte | student-distrib/files.c:136 | one byte goes to its place |
| Kernels.Kernel.Clear | student-distrib/lib.c:114-125 | all 2000 cells of the screen become blank |
| Kernels.Kernel.Write | student-distrib/systemcall.c:314-332 | state and result for every descriptor and every length |
| Kernels.Kernel.TerminalWrite | student-distrib/keyboard.c:245-258 | the bytes for which the line buffer has no room go behind it; the screen shows what was printed |
| Kernels.Kernel.Show | student-distrib/lib.c:310-331 | the screen holds these 4000 bytes, no other memory changes |
| Kernels.Kernel.Strncpy | student-distrib/lib.c:668-683 | text and NULs fill exactly n bytes of memory |
| Kernels.Kernel.Vidmap | student-distrib/systemcall.c:451-494 | state and result for every address; the four bytes stored are the pointer of `KernelLaws.VidmapGivesScreen` |
| Kernels.Kernel.FindVacant | student-distrib/systemcall.c:379-387 | the lowest unused descriptor from 2 on, or -1 |
| Kernels.Kernel.Open | student-distrib/systemcall.c:343-413 | state and result for every name, the stdin and stdout prefixes included |
| Kernels.Kernel.Read | student-distrib/systemcall.c:279-302 | state and result for every descriptor and address: the caller's memory gets exactly the bytes the operation stores, also when it fails |
| Kernels.Kernel.CallRead | student-distrib/systemcall.c:287-299 | the read operation behind a descriptor, storing through the caller's address |
| Kernels.Kernel.StoreAnswer | student-distrib/keyboard.c:219-231 | a device's bytes go through the caller's address |

## Left out

- Port I/O, interrupt controller, clock programming, descriptor tables, exception handlers and boot code.
- The register-level parts of `execute` and `halt`: saved esp and ebp are fields of the control block, the status byte is returned with them; the TLB.
- Waiting loops: `terminal_read` is modelled from the moment the readable flag is up; the clock's answer is a parameter of `read`.
- Calls through empty operation slots (reading stdout, writing stdin): excluded by preconditions of `read` and `close`.
- `set_handler` and `sigreturn`, which return -1; the frequencies that `write` can set on the clock: its answer is a parameter.
- KernelSpec.Write: the bytes of the program's buffer, the address of the line buffer in the kernel's page and the screen after printing are parameters; what is printed is the subject of `Keyboards.Keyboard.TerminalWrite`.
- Commands in memory without a space in the 32 bytes from the pointer on: `execute` then stores behind its local array. The kernel's own "shell" is covered if the bytes behind its NUL hold a space in time.
- Names of more than 31 bytes in the directory: `strlen` then runs into the next field.
- Kernels.Kernel.Read: buffers whose pages are not all there; the handler of a page fault never returns (student-distrib/idt.c:119-124). The same for `getargs`.
- KernelSpec.Read: what the kernel does after its own page has been stored to: such a state is marked as no longer intact, and no further step is described. The bytes of the kernel's data structures are not modelled; the fields describe them only in intact states.
- Editing.RunIsCoherent: the runs also contain writes of more than 1024 bytes, which overrun the buffer (`KernelContainment.LongWriteHits`); what they do to the console is not described.
- Keyboards.Keyboard.TerminalWrite: writes of more than 1024 bytes, for the same reason.
- Grep.GrepFile: files with NULs, as for DoOneFile.
- Grep.DoOneFile: reads are full, as the kernel's are, and `close` of an open file does not fail; for files with NULs, where the C strings end early, nothing is claimed; `main`'s walk through the directory is not part of this model.
- Keyboards.Keyboard.ProcessKey: the translation tables are parameters, those of the source among them (`Typing.SourceTablesAreOk`); the right Ctrl flag, which no key sets, is left out.
- FileSystems.FileSystem.ReadData: the global `length_of_file`, used only by a display routine, is left out.
- FileSystems.FileSystem.DirectoryRead: the entry counter is shared by all processes; interleaved listings are not described.
- The remaining conversions of `printf`, `memset_word`, `memset_dword` and `read_dentry_by_index`, which would only add simpler members.
- `ece391emulate.c`, the demonstration programs and the animation's own drawing of frames.
