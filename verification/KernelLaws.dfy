/** What programs get from the system calls, in plain numbers: file formats, addresses and descriptor numbers
    are written out here. */
module KernelLaws {
  import opened Bytes
  import opened Buffers
  import opened Paging
  import opened FileSystems
  import opened KernelSpec
  import opened KernelRuns
  import opened KernelIsolation
  import opened KernelFiles

  /** The number in four bytes, the lowest first. */
  function Little(a: int, b: int, c: int, d: int): int {
    a + 256 * b + 65536 * c + 16777216 * d
  }

  // ---- execute: the command ----

  /** A command made of a name, a space and arguments is taken apart into these, whatever lies behind it: if the
      name has at most 31 characters and the arguments at most 1023. */
  lemma CommandRoundTrip(name: seq<Byte>, args: seq<Byte>, behind: seq<Byte>)
    requires 0 !in name && 32 !in name && 0 !in args
    ensures var c := name + [32] + args + [0] + behind;
      && (Parses(c) <==> |name| <= 31 && |args| <= 1023)
      && (Parses(c) ==> NameOfCommand(c) == name && ArgsOfCommand(c) == args)
  {
    hide CString, FirstSpace;
    var c, n := name + [32] + args + [0] + behind, |name|;
    assert c[..n] == name && c[n] == 32;
    SpaceAt(c, n);
    assert c[n + 1..n + 1 + |args|] == args && c[n + 1 + |args|] == 0;
    CStringIs(c, n + 1, |args|);
    NameBefore(c, n, name);
  }

  lemma SpaceAt(c: seq<Byte>, n: nat)
    requires n < |c| && c[n] == 32 && 32 !in c[..n]
    ensures FirstSpace(c) == n
    decreases n
  {
    if n > 0 {
      assert c[0] in c[..n];
      assert c[1..][..n - 1] == c[..n][1..];
      SpaceAt(c[1..], n - 1);
    }
  }

  lemma NameBefore(c: seq<Byte>, n: nat, name: seq<Byte>)
    requires n <= |c| && FirstSpace(c) == n && |name| <= n && c[..|name|] == name && 0 !in name
    requires |name| == n || c[|name|] == 0
    ensures NameOfCommand(c) == name
  {
    hide CString, FirstSpace;
    var buffer := c[..n] + [0];
    assert buffer[..|name|] == name && buffer[|name|] == 0;
    assert buffer[0..0 + |name|] == name;
    CStringIs(buffer, 0, |name|);
  }

  /** A NUL before the space ends the name but not the search for the space. */
  lemma NulEndsName(name: seq<Byte>, more: seq<Byte>, args: seq<Byte>, behind: seq<Byte>)
    requires 0 !in name && 32 !in name && 32 !in more && |name| + 1 + |more| < 32 && 0 !in args && |args| < 1024
    ensures var c := name + [0] + more + [32] + args + [0] + behind;
      Parses(c) && NameOfCommand(c) == name && ArgsOfCommand(c) == args
  {
    hide CString, FirstSpace;
    var c, n := name + [0] + more + [32] + args + [0] + behind, |name| + 1 + |more|;
    assert c[..n] == name + [0] + more && c[n] == 32;
    SpaceAt(c, n);
    assert c[n + 1..n + 1 + |args|] == args && c[n + 1 + |args|] == 0;
    CStringIs(c, n + 1, |args|);
    assert c[..|name|] == name && c[|name|] == 0;
    NameBefore(c, n, name);
  }

  // ---- execute: the program ----

  /** Four bytes of a file that has them. */
  lemma FourOfContents(img: seq<Byte>, name: seq<Byte>, offset: nat, local: seq<Byte>)
    requires DiskGood(img) && Lookup(img, name) != -1 && |local| == 4
    requires offset + 4 <= |Contents(img, Entry(img, Lookup(img, name)).inode)|
    ensures ReadFour(img, name, offset, local)
         == Some(Contents(img, Entry(img, Lookup(img, name)).inode)[offset..offset + 4])
  {
    hide FindFrom, FileLength, Contents, NamedReadCount, NamedBytes, WellFormedInode, FileByte, Slice,
      IsImage, FitsWindow;
    var inode := Entry(img, Lookup(img, name)).inode;
    var f := Fd(FileOps, name, inode, offset, true);
    SliceOfContents(img, inode, 0, 0);
    assert WellFormedInode(img, inode) && IsOpenFile(img, f);
    ReadAdvances(img, f, 4);
    NamedBounds(img, name, offset, 4);
    var bytes := NamedBytes(img, name, offset, 4);
    assert bytes + local[4..] == bytes;
    ReadResultOfFour(img, f);
  }

  lemma ReadResultOfFour(img: seq<Byte>, f: Fd)
    requires NamesEnd(img) && f.ops == FileOps
    ensures ReadFd(img, f, 4, NO_ANSWER).1 == NamedReadCount(img, f.name, f.position, 4)
    ensures ReadBytes(img, f, 4, NO_ANSWER) == NamedBytes(img, f.name, f.position, 4)
  {
    hide NamedReadCount, NamedBytes, NamesEnd;
  }

  /** With room for a process, a file of at least 28 bytes is refused unless it begins with 7f 45 4c 46; then it
      is entered at the number in its bytes 24 to 27, the lowest first. */
  lemma EntryByContents(s: State, call: Call)
    requires Inv(s) && CallOk(s, call) && s.counter < 6 && call.command.Some?
    requires Lookup(s.disk, NameOfCommand(call.command.value)) != -1
    requires 28 <= |Contents(s.disk, Entry(s.disk, Lookup(s.disk, NameOfCommand(call.command.value))).inode)|
    ensures var c := Contents(s.disk, Entry(s.disk, Lookup(s.disk, NameOfCommand(call.command.value))).inode);
      Execute(s, call).1 ==
        if c[..4] != [0x7f, 0x45, 0x4c, 0x46] then Refused
        else Entered(Little(c[24], c[25], c[26], c[27]))
  {
    hide FindFrom, FileLength, Contents, ReadFour, FirstSpace, Parses, NameOfCommand, ArgsOfCommand, PcbGood, SpaceGood,
      DiskGood, ReservedClear, Execute, IsImage, FitsWindow, NameOf, Entry;
    var name := NameOfCommand(call.command.value);
    var c := Contents(s.disk, Entry(s.disk, Lookup(s.disk, name)).inode);
    FourOfContents(s.disk, name, 0, call.temp);
    FourOfContents(s.disk, name, 24, call.buf);
    assert c[0..4] == c[..4];
    ExecuteSucceedsExactly(s, call);
  }

  /** No file of this name, no room, or no command: refused. */
  lemma NothingToExecute(s: State, call: Call)
    requires Inv(s) && CallOk(s, call)
    requires s.counter == 6 || call.command == None || Lookup(s.disk, NameOfCommand(call.command.value)) == -1
    ensures Execute(s, call).1 == Refused
  {
    hide FindFrom, FirstSpace, Parses, NameOfCommand, ArgsOfCommand, PcbGood, SpaceGood, DiskGood, ReservedClear,
      Execute, IsImage, FitsWindow, NamedBytes;
    ExecuteSucceedsExactly(s, call);
  }

  /** Byte i of the program is at address 0x08048000 + i of the new process k, in memory at
      4 MB (k + 1) + 0x48000 + i. */
  lemma ProgramByAddress(s: State, call: Call, i: nat)
    requires Inv(s) && CallOk(s, call) && Execute(s, call).1.Entered?
    requires i < LengthOf(s.disk, NameOfCommand(call.command.value))
    ensures var t, p := Execute(s, call).0, 0x40_0000 * (s.counter + 2) + 0x4_8000 + i;
      && t.Ok() && t.cr3 == s.counter && Walk(t.tables, t.cr3, 0x804_8000 + i) == Mapped(p, true, true)
      && Lookup(s.disk, NameOfCommand(call.command.value)) != -1
      && t.mem[p] == Contents(s.disk, Entry(s.disk, Lookup(s.disk, NameOfCommand(call.command.value))).inode)[i]
  {
    hide Execute, Inv, Walk, Contents, FindFrom, NameOf, FileLength, CallOk;
    ProgramIsLoaded(s, call, i);
  }

  // ---- The first process ----

  /** The entry of the first program is remembered, and no later program changes it. */
  lemma FirstEntry(s: State, call: Call, entry: nat)
    requires Inv(s) && CallOk(s, call) && Execute(s, call).1 == Entered(entry)
    ensures Execute(s, call).0.shellEntry == if s.counter == 0 then entry else s.shellEntry
  {
    hide EntryPoint, LoadCount, LoadedBytes, Create, StoreAll, FirstSpace, FindFrom, PcbGood, SpaceGood, DiskGood,
      ReservedClear;
  }

  lemma StepKeepsEntry(s: State, op: Op)
    requires Enabled(s, op) && 1 <= s.counter
    ensures Step(s, op).shellEntry == s.shellEntry && 1 <= Step(s, op).counter
  {
    hide Step, Enabled, Inv;
    KeepsEntry(s, op);
    StepLeavesProcess(s, op);
  }

  lemma KeepsEntry(s: State, op: Op)
    requires Enabled(s, op) && 1 <= s.counter
    ensures Step(s, op).shellEntry == s.shellEntry
  {
    hide PcbGood, SpaceGood, DiskGood, ReservedClear, AllPresent, Spares, ReadBytes, ReadFd, StoreAll, EntryPoint,
      Create, FitsWindow, IsImage, MapVideo, Walk, Lookup, Entry, LoadCount, LoadedBytes, Padded, FirstSpace,
      NameOfCommand, ArgsOfCommand;
    CurrentFiles(s);
  }

  lemma {:induction false} RunKeepsEntry(s: State, ops: seq<Op>)
    requires Inv(s) && 1 <= s.counter && RunEnabled(s, ops)
    ensures Run(s, ops).shellEntry == s.shellEntry
    decreases |ops|
  {
    if ops != [] {
      StepKeepsEntry(s, ops[0]);
      if ops[1..] != [] {
        assert Enabled(Step(s, ops[0]), ops[1..][0]);
        hide Inv, Enabled, Step;
        RunKeepsEntry(Step(s, ops[0]), ops[1..]);
      }
    }
  }

  /** Whatever happens in between: when the first process halts it is started again where it was started. */
  lemma ShellRestarts(s: State, call: Call, first: State, ops: seq<Op>, status: Byte)
    requires Inv(s) && s.counter == 0 && CallOk(s, call) && Execute(s, call).1.Entered?
    requires first == Execute(s, call).0 && RunEnabled(first, ops) && RunContained(first, ops)
    requires Run(first, ops).counter == 1
    ensures Inv(Run(first, ops))
    ensures Halt(Run(first, ops), status).1 == ShellAgain(Execute(s, call).1.entry)
  {
    hide PcbGood, SpaceGood, DiskGood, ReservedClear, Execute, Run, RunEnabled, RunContained, CallOk;
    FirstEntry(s, call, Execute(s, call).1.entry);
    ExecuteKeepsInv(s, call);
    NewPcb(s, call);
    RunKeepsInv(first, ops);
    RunKeepsEntry(first, ops);
    HaltKeepsInv(Run(first, ops), status);
  }

  /** The kernel stack of process k begins at 8 MB - 8 KB (k - 1) - 4, its control block at 8 MB - 8 KB k. */
  lemma StackNumbers(s: State)
    requires Inv(s) && 1 <= s.counter
    ensures s.esp0 == 0x80_0000 - 0x2000 * (s.counter - 1) - 4
    ensures PcbAddress(s.counter) == 0x80_0000 - 0x2000 * s.counter && s.counter <= 6
    ensures |s.mem| == 8 * 0x40_0000 && |s.pcbs| == 6
    ensures PCB_SIZE == 4 * 4 + 8 * (4 + 32 + 4 + 4 + 4) + 1024
  {}

  /** A new process has stdin and stdout and nothing else. */
  lemma NewDescriptors(s: State, call: Call)
    requires Inv(s) && CallOk(s, call) && Execute(s, call).1.Entered?
    ensures Execute(s, call).0.counter == s.counter + 1 <= |Execute(s, call).0.pcbs|
    ensures Files(Execute(s, call).0)
         == [Fd(StdinOps, Ascii("STDIN"), 0, 0, true), Fd(StdoutOps, Ascii("STDOUT"), 0, 0, true)]
            + seq(6, _ => Fd(NoOps, [], 0, 0, false))
  {
    hide EntryPoint, LoadCount, LoadedBytes, Create, StoreAll, FirstSpace, FindFrom, PcbGood, SpaceGood, DiskGood,
      ReservedClear, FitsWindow, IsImage, ParentPid, NewFiles, Ascii;
    SixClosed();
  }

  lemma SixClosed()
    ensures NewFiles() == [Fd(StdinOps, Ascii("STDIN"), 0, 0, true), Fd(StdoutOps, Ascii("STDOUT"), 0, 0, true)]
                          + seq(6, _ => Fd(NoOps, [], 0, 0, false))
  {
    assert STDIN_NAME == Ascii("STDIN") && STDOUT_NAME == Ascii("STDOUT");
  }

  // ---- vidmap ----

  /** The pointer that process k finds at the address `a`. */
  function PointerAt(m: seq<Byte>, k: nat, a: nat): int
    requires Phys(k, a) < |m| && Phys(k, a + 1) < |m| && Phys(k, a + 2) < |m| && Phys(k, a + 3) < |m|
  {
    Little(m[Phys(k, a)], m[Phys(k, a + 1)], m[Phys(k, a + 2)], m[Phys(k, a + 3)])
  }

  /** For every address in the program window vidmap answers 0 and stores there a pointer, whose 4096 bytes are
      the video page from then on; the process reaches the four bytes of the pointer too. */
  lemma VidmapGivesScreen(s: State, a: nat, i: nat, j: nat)
    requires Inv(s) && 1 <= s.counter && 0x800_0000 <= a < 0x840_0000 && i < 4096 && j < 4
    ensures Vidmap(s, a).1 == 0
    ensures var t := Vidmap(s, a).0;
      && Inv(t) && t.Ok() && t.cr3 < PROCESSES
      && Phys(s.counter, a) < MEMORY && Phys(s.counter, a + 1) < MEMORY
      && Phys(s.counter, a + 2) < MEMORY && Phys(s.counter, a + 3) < MEMORY
      && PointerAt(t.mem, s.counter, a) == 0x840_0000
      && Walk(t.tables, t.cr3, 0x840_0000 + i) == Mapped(0xB_8000 + i, true, true)
      && Walk(t.tables, t.cr3, a + j) == Mapped(Phys(s.counter, a + j), true, true)
  {
    hide PcbGood, SpaceGood, DiskGood, ReservedClear, Walk, StoreAll, MapVideo, FitsWindow, IsImage, HasVideo;
    var t, k := Vidmap(s, a).0, s.counter;
    VidmapKeepsInv(s, a);
    VideoIsMapped(s);
    TranslationIsPhys(t, 0x840_0000 + i);
    TranslationIsPhys(t, a + j);
    PointerIsStored(s.mem, k, a);
  }

  lemma VideoIsMapped(s: State)
    requires Inv(s) && 1 <= s.counter
    ensures HasVideo(MapVideo(s.tables, s.counter), s.counter)
  {
    hide PcbGood, DiskGood;
    MapVideoKeepsSpaces(s.tables, s.counter, s.counter);
  }

  /** For any other address it answers -1 and does nothing. */
  lemma VidmapRefuses(s: State, a: nat)
    requires Inv(s) && 1 <= s.counter
    ensures Vidmap(s, a) == (s, -1) <==> !(0x800_0000 <= a < 0x840_0000)
  {}

  lemma PointerIsStored(m: seq<Byte>, k: nat, a: nat)
    requires |m| == MEMORY && 1 <= k <= PROCESSES && 0x800_0000 <= a < 0x840_0000
    ensures var r := StoreAll(m, Linear(k, a), SCREEN_BYTES);
      && Phys(k, a) < MEMORY && Phys(k, a + 1) < MEMORY && Phys(k, a + 2) < MEMORY && Phys(k, a + 3) < MEMORY
      && r[Phys(k, a)] == 0 && r[Phys(k, a + 1)] == 0 && r[Phys(k, a + 2)] == 0x40 && r[Phys(k, a + 3)] == 8
  {
    hide StoreAll;
    var b := Linear(k, a);
    assert b.Place(0) == Phys(k, a) && b.Place(1) == Phys(k, a + 1);
    assert b.Place(2) == Phys(k, a + 2) && b.Place(3) == Phys(k, a + 3);
    StoreAllStores(m, b, SCREEN_BYTES, 0);
    StoreAllStores(m, b, SCREEN_BYTES, 1);
    StoreAllStores(m, b, SCREEN_BYTES, 2);
    StoreAllStores(m, b, SCREEN_BYTES, 3);
  }

  // ---- Descriptors ----

  /** What open enters for an ordinary name: the operations of the clock for type 0, of directories for type 1 and
      of files for type 2, the name, the inode of its entry, and the start. */
  lemma OpenEnters(s: State, name: seq<Byte>)
    requires Inv(s) && 1 <= s.counter && First(name, 5) != Ascii("stdin") && First(name, 5) != Ascii("stdou")
    requires |Files(s)| == 8 && Open(s, name).1 != -1
    ensures var (t, fd) := Open(s, name);
      && 2 <= fd < 8 && Lookup(s.disk, name) != -1 && t.counter == s.counter && |t.pcbs| == |s.pcbs| && |Files(t)| == 8
      && var d := Entry(s.disk, Lookup(s.disk, name));
         Files(t)[fd] == Fd(if d.filetype == 0 then RtcOps else if d.filetype == 1 then DirectoryOps else FileOps,
                            name, d.inode, 0, true)
  {
    hide FindFrom, NameOf, PcbGood, SpaceGood, ReservedClear, IsImage, FitsWindow, WellFormedInode, Vacant, First;
    StandardNames();
    if Lookup(s.disk, name) != -1 {
      assert Entry(s.disk, Lookup(s.disk, name)).filetype <= 2;
    }
  }

  lemma StandardNames()
    ensures STDIN_5 == Ascii("stdin") && STDOUT_5 == Ascii("stdou")
  {}

  /** Names that begin with "stdin" or "stdou" are those of the two standard descriptors, which are open anyway:
      nothing changes, and the answer is 0 for both. */
  lemma OpenStandard(s: State, name: seq<Byte>)
    requires Inv(s) && 1 <= s.counter && |Files(s)| == 8
    requires First(name, 5) == Ascii("stdin") || First(name, 5) == Ascii("stdou")
    ensures Open(s, name) == (s, 0)
  {
    hide SpaceGood, ReservedClear, DiskGood, FdGood, First;
    StandardNames();
    CurrentFiles(s);
    var k, files := s.counter - 1, Files(s);
    assert files[0 := files[0].(ops := StdinOps, used := true)] == files;
    assert files[1 := files[1].(ops := StdoutOps, used := true)] == files;
    assert s.pcbs[k := s.pcbs[k].(files := files)] == s.pcbs;
  }

  /** close answers 0 exactly for an open descriptor of 2 to 7, at whatever position, frees it, and touches no
      other; for any other number it answers -1 and does nothing. */
  lemma CloseFrees(s: State, fd: int, other: nat)
    requires Inv(s) && 1 <= s.counter && |Files(s)| == 8 && other < 8 && other != fd
    ensures var (t, r) := Close(s, fd);
      && t.counter == s.counter && |t.pcbs| == |s.pcbs| && |Files(t)| == 8 && Files(t)[other] == Files(s)[other]
      && (r == 0 <==> 2 <= fd <= 7 && Files(s)[fd].ops != NoOps)
      && (r == 0 ==> Files(t)[fd] == Fd(NoOps, [], 0, 0, false) && t == s.(pcbs := t.pcbs))
      && (r != 0 ==> r == -1 && t == s)
  {
    hide SpaceGood, ReservedClear, DiskGood;
    CurrentFiles(s);
    assert 2 <= fd <= 7 ==> FdGood(s.disk, Files(s)[fd]);
  }

  /** A negative count is a very large one: the read delivers all that is left. */
  lemma NegativeCountReadsRest(img: seq<Byte>, f: Fd, n: int, device: Answer)
    requires IsOpenFile(img, f) && -0x8000_0000 <= n < 0
    ensures var rest := FileLength(img, f.inode) - f.position; var (g, r) := ReadFd(img, f, Unsigned(n), device);
      if f.position == FileLength(img, f.inode) || NextEntryOk(img, f.inode) then r == rest else r == -1
  {
    hide NextEntryOk, FileLength, FindFrom, NamedReadCount, BlockNo;
    OpenFileLength(img, f);
    ReadFailsExactly(img, f, Unsigned(n));
  }

  /** Counts of programs: what is not negative stands for itself. */
  lemma Counts(n: int)
    requires -0x8000_0000 <= n < 0x8000_0000
    ensures Unsigned(n) == if n >= 0 then n else 0x1_0000_0000 + n
  {}

  /** read and write refuse numbers that are no open descriptor, and NULL: they answer -1 and do nothing. */
  lemma NoDescriptor(s: State, fd: int, buf: nat, n: int, device: Answer, data: seq<Byte>, devices: Devices)
    requires Inv(s) && 1 <= s.counter && |Files(s)| == 8 && -0x8000_0000 <= n < 0x8000_0000
    requires !(0 <= fd <= 7) || buf == 0 || Files(s)[fd].ops == NoOps
    ensures Read(s, fd, buf, n, device) == (s, -1) && Write(s, fd, buf, n, data, devices) == (s, -1)
  {
    hide SpaceGood, ReservedClear, DiskGood;
    CurrentFiles(s);
    assert 2 <= fd <= 7 ==> FdGood(s.disk, Files(s)[fd]);
  }

  /** Writing to a file or a directory always fails; the clock takes four bytes only; stdout takes everything and
      answers with the number of characters printed, those of the line being typed included. */
  lemma WriteAnswers(s: State, fd: int, buf: nat, n: int, data: seq<Byte>, devices: Devices)
    requires Inv(s) && 1 <= s.counter && |Files(s)| == 8 && 1 <= fd <= 7 && buf != 0 && |data| == if n < 0 then 0 else n
    ensures fd == 1 ==> Write(s, fd, buf, n, data, devices).1 == devices.typed + |data|
    ensures fd >= 2 ==>
      Write(s, fd, buf, n, data, devices) == (s, if Files(s)[fd].ops == RtcOps && n == 4 then devices.clock else -1)
  {
    hide SpaceGood, ReservedClear, DiskGood;
    CurrentFiles(s);
    assert 2 <= fd <= 7 ==> FdGood(s.disk, Files(s)[fd]);
  }

  // ---- The screen and the line buffer ----

  /** A cleared screen: 2000 times a blank on attribute 7, in the memory from 0xB8000 on. */
  lemma ClearedCells(s: State, i: nat)
    requires |s.mem| == MEMORY && i < 2000
    ensures var m := Shown(s, ClearedScreen()).mem;
      |m| == MEMORY && m[0xB_8000 + 2 * i] == 32 && m[0xB_8000 + 2 * i + 1] == 7
  {
    hide StoreAll;
    ShownOnlyThere(s, ClearedScreen());
    assert ClearedScreen()[2 * i] == 32 && ClearedScreen()[2 * i + 1] == 7;
  }

  /** A write to stdout is contained up to 1024 bytes; then it changes the screen only. */
  lemma WriteOfAtMost1024(s: State, buf: nat, n: int, data: seq<Byte>, devices: Devices)
    requires Enabled(s, WriteOp(1, buf, n, data, devices)) && buf != 0
    ensures Contained(s, WriteOp(1, buf, n, data, devices)) <==> n <= 1024
    ensures n <= 1024 ==> Step(s, WriteOp(1, buf, n, data, devices)) == Shown(s, devices.screen)
  {
    hide SpaceGood, ReservedClear, DiskGood, FdGood, Shown, AllPresent;
    CurrentFiles(s);
  }
}
