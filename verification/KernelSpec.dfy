/** The system calls of student-distrib/systemcall.c as functions on kernel states. */
module KernelSpec {
  import opened Bytes
  import opened Buffers
  import opened Paging
  import opened FileSystems

  const BOTTOM_STACK := 0x80_0000
  const STACK_SIZE := 0x2000
  const PCB_SIZE := 1424
  const PROGRAM_START := 0x0804_8000
  const ARG_SIZE := 1024
  const CODE_STARTING_POINT := 24
  const WRAP := 0x1_0000_0000
  const SPACE: Byte := 32
  const MAGIC: seq<Byte> := [0x7f, 0x45, 0x4c, 0x46]
  const STDIN_NAME: seq<Byte> := [83, 84, 68, 73, 78]
  const STDOUT_NAME: seq<Byte> := [83, 84, 68, 79, 85, 84]

  /** What `file_operation` points to. */
  datatype FileOp = NoOps | StdinOps | StdoutOps | RtcOps | FileOps | DirectoryOps

  datatype Fd = Fd(ops: FileOp, name: seq<Byte>, inode: nat, position: nat, used: bool)

  const CLOSED := Fd(NoOps, [], 0, 0, false)

  /** A process control block; `arg` is the text of its argument string. */
  datatype Pcb = Pcb(pid: nat, parentPid: nat, parentEsp: nat, parentEbp: nat, files: seq<Fd>, arg: seq<Byte>)

  /** `pcbs[k - 1]` is the block of process k; CR3 is given as the number of the page directory; `mem` is
      the physical memory below 32 MB as programs change it, by their own stores and by what the kernel
      stores for them. The kernel's own data, all in the page from 4 to 8 MB, are in the other fields; these
      describe that page as long as it is `intact`: no byte has been stored there for a program. */
  datatype State = State(counter: nat, argSize: nat, shellEntry: nat, cr3: nat, esp0: nat, tables: Tables,
                         pcbs: seq<Pcb>, mem: seq<Byte>, disk: seq<Byte>, intact: bool)
  {
    ghost predicate Ok() {
      && counter <= PROCESSES && tables.Ok() && |pcbs| == PROCESSES && |mem| == MEMORY
      && DiskOk(disk)
    }
  }

  /** What the kernel needs of the disk for memory safety: an image with terminated names whose files
      fit the program window. */
  ghost predicate DiskOk(img: seq<Byte>) {
    && IsImage(img) && NamesEnd(img)
    && forall e {:trigger Entry(img, e)} :: 0 <= e < ENTRIES ==> FitsWindow(img, Entry(img, e).inode)
  }

  ghost predicate FitsWindow(img: seq<Byte>, inode: nat) {
    UNIT * (inode + 1) + 4 <= |img| && PROGRAM_START + FileLength(img, inode) <= USER_END
  }

  // ---- Addresses ----

  function PcbAddress(k: nat): int {
    BOTTOM_STACK - STACK_SIZE * k
  }

  function Esp0(k: nat): int {
    BOTTOM_STACK - (k - 1) * STACK_SIZE - 4
  }

  /** Where a running kernel-mode stack pointer of process k can be. */
  predicate InStack(k: nat, esp: int) {
    PcbAddress(k) + PCB_SIZE <= esp <= Esp0(k)
  }

  /** `esp & 0xffffe000` */
  function Mask(esp: nat): nat {
    esp / STACK_SIZE * STACK_SIZE
  }

  /** The physical address at which process k sees PROGRAM_START. */
  function LoadBase(k: nat): nat {
    Phys(k, PROGRAM_START)
  }

  // ---- execute ----

  /** Everything execute depends on besides the state: the command (None for NULL, else the memory from the
      pointer on), the registers, and what its two 4-byte locals happen to hold. */
  datatype Call = Call(command: Option<seq<Byte>>, esp: nat, ebp: nat, temp: seq<Byte>, buf: seq<Byte>)

  function FirstSpace(command: seq<Byte>): (i: nat)
    ensures i <= |command| && SPACE !in command[..i] && (i < |command| ==> command[i] == SPACE)
  {
    if command == [] || command[0] == SPACE then 0 else
      var i := 1 + FirstSpace(command[1..]);
      assert command[..i] == [command[0]] + command[1..][..i - 1];
      i
  }

  /** The command has a space among its first 32 bytes and a NUL at most 1024 bytes further on. A NUL before
      the space does not end the loop that looks for it. */
  predicate Parses(command: seq<Byte>) {
    var space := FirstSpace(command);
    space < 32 && space < |command| && Terminated(command, space + 1) && |CString(command, space + 1)| < ARG_SIZE
  }

  /** The bytes before the space, as the C string that the file system reads. */
  function NameOfCommand(command: seq<Byte>): (name: seq<Byte>)
    ensures 0 !in name
  {
    var buffer := command[..FirstSpace(command)] + [0];
    assert buffer[FirstSpace(command)] == 0;
    CString(buffer, 0)
  }

  function ArgsOfCommand(command: seq<Byte>): (args: seq<Byte>)
    requires Parses(command)
    ensures 0 !in args && |args| < ARG_SIZE
  {
    CString(command, FirstSpace(command) + 1)
  }

  /** A 4-byte local after a read of 4 bytes into it: a short read leaves its tail as it was. */
  ghost function ReadFour(img: seq<Byte>, name: seq<Byte>, offset: nat, local: seq<Byte>): (r: Option<seq<Byte>>)
    requires NamesEnd(img) && |local| == 4
    ensures r.Some? ==> Lookup(img, name) != -1 && |r.value| == 4
  {
    NamedBounds(img, name, offset, 4);
    var bytes := NamedBytes(img, name, offset, 4);
    if NamedReadCount(img, name, offset, 4) == FAIL then None else Some(bytes + local[|bytes|..])
  }

  /** check_executable and the read of the entry point. */
  ghost function EntryPoint(img: seq<Byte>, name: seq<Byte>, temp: seq<Byte>, buf: seq<Byte>): (r: Option<nat>)
    requires NamesEnd(img) && |temp| == 4 && |buf| == 4
    ensures r.Some? ==> Lookup(img, name) != -1
  {
    if ReadFour(img, name, 0, temp) != Some(MAGIC) then None else
      match ReadFour(img, name, CODE_STARTING_POINT, buf)
      case None => None
      case Some(b) => Some(Word(b, 0))
  }

  /** Nothing changed outside `[lo, hi)`. */
  ghost predicate SameOutside(was: seq<Byte>, now: seq<Byte>, lo: nat, hi: nat) {
    |now| == |was| && forall k {:trigger now[k]} :: 0 <= k < |was| && (k < lo || hi <= k) ==> now[k] == was[k]
  }

  function NewFiles(): (f: seq<Fd>)
    ensures |f| == 8
  {
    [Fd(StdinOps, STDIN_NAME, 0, 0, true), Fd(StdoutOps, STDOUT_NAME, 0, 0, true),
     CLOSED, CLOSED, CLOSED, CLOSED, CLOSED, CLOSED]
  }

  datatype Outcome = Refused | Entered(entry: nat)

  ghost predicate CallOk(s: State, call: Call) {
    && (call.command.Some? ==> Parses(call.command.value))
    && |call.temp| == 4 && |call.buf| == 4
    && call.esp < WRAP && (s.counter >= 1 ==> InStack(s.counter, call.esp))
  }

  /** The pid that execute finds by masking its stack pointer. */
  function ParentPid(s: State, k: nat, esp: nat): nat
    requires |s.pcbs| == PROCESSES && 1 <= k <= PROCESSES && (k > 1 ==> InStack(k - 1, esp))
  {
    if k == 1 then 0 else
      var slot := (BOTTOM_STACK - Mask(esp)) / STACK_SIZE;
      MaskInStack(k - 1, esp);
      s.pcbs[slot - 1].pid
  }

  /** Masking any kernel stack pointer of process k gives the address of its own control block. */
  lemma MaskInStack(k: nat, esp: nat)
    requires 1 <= k <= PROCESSES && InStack(k, esp)
    ensures Mask(esp) == PcbAddress(k) && (BOTTOM_STACK - Mask(esp)) / STACK_SIZE == k
  {}

  /** The state after execute has made room for process counter + 1 and has tried to load its program. */
  ghost function Admitted(s: State, name: seq<Byte>, args: seq<Byte>, entry: nat): State
    requires s.Ok() && s.counter < PROCESSES && Lookup(s.disk, name) != -1
  {
    var k := s.counter + 1;
    s.(argSize := |args|, counter := k, shellEntry := if k == 1 then entry else s.shellEntry,
       tables := Create(s.tables, k), cr3 := k - 1,
       mem := StoreAll(s.mem, Linear(k, PROGRAM_START), LoadedBytes(s.disk, name)))
  }

  /** What was in `arg_size` does not matter any more. */
  lemma AdmittedAnyway(s: State, n: nat, name: seq<Byte>, args: seq<Byte>, entry: nat)
    requires s.Ok() && s.counter < PROCESSES && Lookup(s.disk, name) != -1
    ensures Admitted(s.(argSize := n), name, args, entry) == Admitted(s, name, args, entry)
  {
    hide DiskOk, StoreAll, Create, LoadedBytes, Lookup;
  }

  ghost function Execute(s: State, call: Call): (State, Outcome)
    requires s.Ok() && CallOk(s, call)
  {
    if s.counter >= PROCESSES || call.command == None then (s, Refused) else
      var name, args := NameOfCommand(call.command.value), ArgsOfCommand(call.command.value);
      match EntryPoint(s.disk, name, call.temp, call.buf)
      case None => (s.(argSize := |args|), Refused)
      case Some(entry) =>
        var t := Admitted(s, name, args, entry);
        if LoadCount(s.disk, name) == FAIL then (t, Refused) else
          (Launched(t, args, call.esp, call.ebp), Entered(entry))
  }

  /** The rest of a successful execute: the new control block and tss.esp0. */
  ghost function Launched(t: State, args: seq<Byte>, esp: nat, ebp: nat): State
    requires t.Ok() && 1 <= t.counter && (t.counter > 1 ==> InStack(t.counter - 1, esp))
  {
    var k := t.counter;
    t.(pcbs := t.pcbs[k - 1 := Pcb(k, ParentPid(t, k, esp), esp, ebp, NewFiles(), args)], esp0 := Esp0(k))
  }

  /** The program arrives at LoadBase. */
  lemma LoadIsWritten(img: seq<Byte>, m: seq<Byte>, name: seq<Byte>, k: nat)
    requires DiskOk(img) && NamesEnd(img) && |m| == MEMORY && 1 <= k <= PROCESSES && Lookup(img, name) != -1
    ensures var data := LoadedBytes(img, name);
      Written(m, StoreAll(m, Linear(k, PROGRAM_START), data), LoadBase(k), data)
  {
    hide LoadedBytes, StoreAll, DiskOk, LengthOf, Lookup, Written;
    LoadFits(img, name, k);
    StoredInWindow(m, k, PROGRAM_START, LoadedBytes(img, name));
  }

  /** The program window has room for any file. */
  lemma RoomForFile(img: seq<Byte>, name: seq<Byte>, k: nat)
    requires DiskOk(img) && 1 <= k <= PROCESSES && Lookup(img, name) != -1
    ensures HasRoom(img, name, 0, LengthOf(img, name), Linear(k, PROGRAM_START), MEMORY)
  {
    hide NamedBytes, IsImage;
    LoadFits(img, name, k);
    assert FitsWindow(img, Entry(img, Lookup(img, name)).inode);
  }

  lemma FirstSpaceIs(command: seq<Byte>, i: nat)
    requires i <= FirstSpace(command) && i < |command| && command[i] == SPACE
    ensures i == FirstSpace(command)
  {
    hide FirstSpace;
    assert forall j :: 0 <= j < FirstSpace(command) ==> command[j] in command[..FirstSpace(command)];
  }

  lemma NulIsEnd(command: seq<Byte>, at: nat, i: nat)
    requires Terminated(command, at) && at <= i <= at + |CString(command, at)| && command[i] == 0
    ensures command[at..i] == CString(command, at)
  {
    hide CString;
    var s := CString(command, at);
    assert forall j :: 0 <= j < |s| ==> s[j] in s && command[at + j] == command[at..at + |s|][j];
  }

  /** A file of a memory-safe disk can be read into four bytes. */
  lemma RoomForFour(img: seq<Byte>, name: seq<Byte>, offset: nat)
    requires DiskOk(img)
    ensures HasRoom(img, name, offset, 4, Flat(0), 4)
  {
    hide NamedBytes, NamedReadCount, IsImage;
    NamedBounds(img, name, offset, 4);
    if Lookup(img, name) != -1 {
      assert FitsWindow(img, Entry(img, Lookup(img, name)).inode);
    }
  }

  lemma LoadFits(img: seq<Byte>, name: seq<Byte>, k: nat)
    requires DiskOk(img) && 1 <= k <= PROCESSES && Lookup(img, name) != -1
    ensures LoadBase(k) + |LoadedBytes(img, name)| <= LoadBase(k) + LengthOf(img, name) <= (k + 2) * MB4 <= MEMORY
    ensures PROGRAM_START + LengthOf(img, name) <= USER_END && LengthOf(img, name) <= MAX_BLOCKS * UNIT
  {
    LoadBounds(img, name);
    assert FitsWindow(img, Entry(img, Lookup(img, name)).inode);
  }

  /** A read to addresses that do not fault has a place for all it stores. */
  lemma RoomForRead(img: seq<Byte>, f: Fd, k: nat, buf: nat, n: nat, device: Answer, video: bool)
    requires DiskOk(img) && 1 <= k <= PROCESSES && f.ops == FileOps
    requires AllPresent(buf, |ReadBytes(img, f, n, device)|, video)
    ensures HasRoom(img, f.name, f.position, n, Linear(k, buf), MEMORY)
  {
    hide NamedBytes, IsImage;
    PresentFits(k, buf, |ReadBytes(img, f, n, device)|, video);
    if Lookup(img, f.name) != -1 {
      assert FitsWindow(img, Entry(img, Lookup(img, f.name)).inode);
    }
  }

  // ---- The screen ----

  const VIDEO: nat := VIDEO_PAGE * PAGE
  const SCREEN_SIZE := 4000

  /** 2000 blank cells, character and attribute in turn. */
  function ClearedScreen(): (screen: seq<Byte>)
    ensures |screen| == SCREEN_SIZE
  {
    seq<Byte>(SCREEN_SIZE, i => if i % 2 == 0 then BLANK else 7)
  }

  /** The console shows this. */
  function Shown(s: State, screen: seq<Byte>): State {
    s.(mem := StoreAll(s.mem, Flat(VIDEO), screen))
  }

  lemma ShownOnlyThere(s: State, screen: seq<Byte>)
    requires |s.mem| == MEMORY && |screen| == SCREEN_SIZE
    ensures Written(s.mem, Shown(s, screen).mem, VIDEO, screen)
  {
    StoreAllIsWritten(s.mem, Flat(VIDEO), VIDEO, screen);
  }

  // ---- halt ----

  datatype Return = ShellAgain(entry: nat) | Back(esp: nat, ebp: nat, status: Byte)

  ghost function Halt(s: State, status: Byte): (State, Return)
    requires s.Ok() && 1 <= s.counter
    requires s.pcbs[s.counter - 1].pid != 1 ==> 1 <= s.pcbs[s.counter - 1].parentPid
  {
    var pcb := s.pcbs[s.counter - 1];
    if pcb.pid == 1 then (Shown(s, ClearedScreen()), ShellAgain(s.shellEntry)) else
      (s.(counter := s.counter - 1, cr3 := pcb.parentPid - 1, esp0 := Esp0(s.counter - 1)),
       Back(pcb.parentEsp, pcb.parentEbp, status))
  }

  // ---- The calls of the current process ----

  function Files(s: State): seq<Fd>
    requires 1 <= s.counter <= |s.pcbs|
  {
    s.pcbs[s.counter - 1].files
  }

  function SetFile(s: State, fd: nat, f: Fd): State
    requires 1 <= s.counter <= |s.pcbs| && fd < |Files(s)|
  {
    var k := s.counter - 1;
    s.(pcbs := s.pcbs[k := s.pcbs[k].(files := s.pcbs[k].files[fd := f])])
  }

  /** Descriptors and memory are apart. */
  lemma SetFileOfMem(s: State, m: seq<Byte>, intact: bool, fd: nat, f: Fd)
    requires 1 <= s.counter <= |s.pcbs| && fd < |Files(s)|
    ensures SetFile(s.(mem := m, intact := intact), fd, f) == SetFile(s, fd, f).(mem := m, intact := intact)
    ensures SetFile(s, fd, f) == s.(pcbs := SetFile(s, fd, f).pcbs)
  {}

  /** A signed 32-bit count passed as an unsigned one. */
  function Unsigned(n: int): nat
    requires -0x8000_0000 <= n < 0x8000_0000
  {
    if n < 0 then n + WRAP else n
  }

  /** No store to the `n` addresses from `la` on faults. */
  predicate AllPresent(la: nat, n: nat, video: bool) {
    forall a {:trigger Present(a, video)} :: la <= a < la + n ==> Present(a, video)
  }

  /** None of the `n` addresses from `la` on lies in the page of the kernel. */
  predicate Spares(la: nat, n: nat) {
    forall a {:trigger InKernelPage(a)} :: la <= a < la + n ==> !InKernelPage(a)
  }

  lemma PresentFits(k: nat, la: nat, n: nat, video: bool)
    requires 1 <= k <= PROCESSES && AllPresent(la, n, video)
    ensures Linear(k, la).Fits(n, MEMORY)
  {
    forall i | 0 <= i < n ensures Linear(k, la).Place(i) < MEMORY {
      assert Present(la + i, video);
      PhysStaysInside(k, la + i, video);
    }
  }

  /** What a read operation other than file_read returns and stores. */
  datatype Answer = Answer(value: int, data: seq<Byte>)

  ghost function ReadResult(img: seq<Byte>, f: Fd, n: nat, device: Answer): int
    requires NamesEnd(img)
  {
    if f.ops == FileOps then NamedReadCount(img, f.name, f.position, n) else device.value
  }

  ghost function ReadBytes(img: seq<Byte>, f: Fd, n: nat, device: Answer): seq<Byte>
    requires NamesEnd(img)
  {
    if f.ops == FileOps then NamedBytes(img, f.name, f.position, n) else device.data
  }

  /** A read through one descriptor: the position moves by the result, even by -1. */
  ghost function ReadFd(img: seq<Byte>, f: Fd, n: nat, device: Answer): (Fd, int)
    requires NamesEnd(img)
  {
    var bytes := ReadResult(img, f, n, device);
    (f.(position := (f.position + bytes) % WRAP), bytes)
  }

  /** The only test of the buffer's address is for NULL; the stores go where CR3 leads. */
  ghost function Read(s: State, fd: int, buf: nat, n: int, device: Answer): (State, int)
    requires s.Ok() && 1 <= s.counter && |Files(s)| == 8 && -0x8000_0000 <= n < 0x8000_0000
  {
    if fd < 0 || fd > 7 || buf == 0 || !Files(s)[fd].used then (s, -1) else
      var f := Files(s)[fd];
      var (g, bytes) := ReadFd(s.disk, f, Unsigned(n), device);
      (Stored(SetFile(s, fd, g), buf, ReadBytes(s.disk, f, Unsigned(n), device)), bytes)
  }

  /** The kernel has stored `data` at the address `la` of the running process. */
  function Stored(s: State, la: nat, data: seq<Byte>): State {
    s.(mem := StoreAll(s.mem, Linear(s.counter, la), data), intact := s.intact && Spares(la, |data|))
  }

  const LINE_BUFFER_SIZE := 1024

  /** What write finds outside the state: the address of the line buffer in the kernel's page, the number of
      characters being typed in it, the screen after printing, and the clock's answer. */
  datatype Devices = Devices(lineBuffer: nat, typed: nat, screen: seq<Byte>, clock: int)

  /** write of `n` bytes, the program's `data`. For stdout these go to the line buffer from its start on, however
      many they are; the buffer itself belongs to the keyboard, what lies behind it to the rest of the kernel. */
  function Write(s: State, fd: int, buf: nat, n: int, data: seq<Byte>, devices: Devices): (State, int)
    requires 1 <= s.counter <= |s.pcbs| && |Files(s)| == 8
  {
    if fd < 0 || fd > 7 || buf == 0 || !Files(s)[fd].used then (s, -1) else
      match Files(s)[fd].ops
      case StdoutOps => (Shown(Overrun(s, data, devices.lineBuffer), devices.screen), devices.typed + |data|)
      case RtcOps => (s, if n != 4 then -1 else devices.clock)
      case _ => (s, -1)
  }

  /** `data` stored to the line buffer, as far as it does not fit. */
  function Overrun(s: State, data: seq<Byte>, lineBuffer: nat): State {
    if |data| <= LINE_BUFFER_SIZE then s else
      s.(mem := StoreAll(s.mem, Flat(lineBuffer + LINE_BUFFER_SIZE), data[LINE_BUFFER_SIZE..]), intact := false)
  }

  lemma OverrunOnlyThere(s: State, data: seq<Byte>, lineBuffer: nat)
    requires |s.mem| == MEMORY && lineBuffer + |data| <= 2 * MB4 && |data| > LINE_BUFFER_SIZE
    ensures Written(s.mem, Overrun(s, data, lineBuffer).mem, lineBuffer + LINE_BUFFER_SIZE, data[LINE_BUFFER_SIZE..])
  {
    var at := lineBuffer + LINE_BUFFER_SIZE;
    StoreAllIsWritten(s.mem, Flat(at), at, data[LINE_BUFFER_SIZE..]);
  }

  /** "stdin" and "stdou", the five characters that open compares. */
  const STDIN_5: seq<Byte> := [115, 116, 100, 105, 110]
  const STDOUT_5: seq<Byte> := [115, 116, 100, 111, 117]

  /** The lowest unused descriptor from `fd` on, or -1. */
  function Vacant(files: seq<Fd>, fd: nat): (v: int)
    requires |files| == 8 && fd <= 8
    ensures v == -1 || (fd <= v < 8 && !files[v].used)
    ensures forall i :: fd <= i < (if v == -1 then 8 else v) ==> files[i].used
    decreases 8 - fd
  {
    if fd == 8 then -1 else if !files[fd].used then fd else Vacant(files, fd + 1)
  }

  function OpsOf(filetype: nat, otherwise: FileOp): FileOp {
    if filetype == 2 then FileOps else if filetype == 1 then DirectoryOps
    else if filetype == 0 then RtcOps else otherwise
  }

  ghost function Open(s: State, name: seq<Byte>): (State, int)
    requires s.Ok() && 1 <= s.counter && |Files(s)| == 8
  {
    var files := Files(s);
    if First(name, 5) == STDIN_5 then (SetFile(s, 0, files[0].(ops := StdinOps, used := true)), 0)
    else if First(name, 5) == STDOUT_5 then (SetFile(s, 1, files[1].(ops := StdoutOps, used := true)), 0)
    else if Lookup(s.disk, name) == -1 then (s, -1)
    else
      var v := Vacant(files, 2);
      if v == -1 then (s, -1) else
        var d := Entry(s.disk, Lookup(s.disk, name));
        (SetFile(s, v, Fd(OpsOf(d.filetype, files[v].ops), name, d.inode, 0, true)), v)
  }

  /** Every close operation of a table there is returns 0. */
  function Close(s: State, fd: int): (State, int)
    requires 1 <= s.counter <= |s.pcbs| && |Files(s)| == 8
  {
    if fd < 2 || fd > 7 || !Files(s)[fd].used then (s, -1) else (SetFile(s, fd, CLOSED), 0)
  }

  /** The argument text, cut or padded with NULs to `n` bytes, goes to the caller's buffer. */
  function GetArgs(s: State, buf: nat, n: int): (State, int)
    requires 1 <= s.counter <= |s.pcbs|
  {
    if buf == 0 || n < s.argSize then (s, -1) else (Stored(s, buf, Padded(s.pcbs[s.counter - 1].arg, n)), 0)
  }

  /** strncpy of `n` characters. */
  function Padded(arg: seq<Byte>, n: nat): (p: seq<Byte>)
    ensures |p| == n
  {
    seq(n, i requires 0 <= i => if i < |arg| then arg[i] else 0)
  }

  /** The address stored for the caller, least significant byte first. */
  const SCREEN_BYTES: seq<Byte> := [0, 0, 0x40, 0x08]

  /** The store comes after the mapping: the last bytes can fall on the page just mapped. */
  function Vidmap(s: State, screenStart: nat): (State, int)
    requires 1 <= s.counter <= PROCESSES && s.tables.Ok()
  {
    if screenStart < USER_START || screenStart >= USER_END then (s, -1) else
      (Stored(s.(tables := MapVideo(s.tables, s.counter)), screenStart, SCREEN_BYTES), 0)
  }

  /** A program's own store instruction, through the page directory in CR3. */
  function Store(s: State, la: nat, b: Byte): State
    requires s.tables.Ok() && s.cr3 < PROCESSES && la < WRAP
  {
    match Walk(s.tables, s.cr3, la)
    case Mapped(phys, true, true) => if phys < |s.mem| then s.(mem := s.mem[phys := b]) else s
    case _ => s
  }
}
