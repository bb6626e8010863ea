/** Concrete machines: one to which the statements about runs apply, and one for each way in which the
    system calls can disappoint their callers. */
module KernelExample {
  import opened Bytes
  import opened Buffers
  import opened Paging
  import opened FileSystems
  import opened KernelSpec
  import opened KernelRuns
  import opened KernelIsolation
  import opened KernelContainment
  import opened KernelRestoration
  import opened KernelFiles

  const NAME: seq<Byte> := [97]
  const ZEROS: seq<Byte> := [0, 0, 0, 0]

  // ---- A disk ----

  /** One inode and one data block. The first entry is the file "a" of this type and length, a program; the
      second number in its block table is not that of a block. */
  function SmallDisk(filetype: Byte, length: nat): seq<Byte>
    requires length < 0x1_0000
  {
    seq<Byte>(3 * UNIT, i =>
      if i == 4 || i == 8 then 1 else if i == 64 then 97 else if i == 96 then filetype
      else if i == UNIT then length % 0x100 else if i == UNIT + 1 then length / 0x100 else if i == UNIT + 8 then 5
      else if 2 * UNIT <= i < 2 * UNIT + 4 then MAGIC[i - 2 * UNIT] else 0)
  }

  lemma DiskWords(filetype: Byte, length: nat)
    requires length < 0x1_0000
    ensures var img := SmallDisk(filetype, length);
      && IsImage(img) && InodesNum(img) == BlocksNum(img) == 1
      && FileLength(img, 0) == length && BlockNo(img, 0, 0) == 0 && BlockNo(img, 0, 1) == 5
  {}

  lemma DiskNames(filetype: Byte, length: nat)
    requires length < 0x1_0000
    ensures NamesEnd(SmallDisk(filetype, length)) && NameOf(SmallDisk(filetype, length), 0) == NAME
  {
    var img := SmallDisk(filetype, length);
    forall e {:trigger EntryAt(e)} | 0 <= e < ENTRIES ensures NulWithin(img, EntryAt(e), 32) {
      assert img[EntryAt(e) + 1] == 0;
    }
    assert img[64..65] == NAME;
    CStringIs(img, 64, 1);
  }

  lemma DiskEntry(filetype: Byte, length: nat, e: nat)
    requires length < 0x1_0000 && e < ENTRIES
    ensures NamesEnd(SmallDisk(filetype, length)) && Entry(SmallDisk(filetype, length), e).inode == 0
    ensures Entry(SmallDisk(filetype, length), e).filetype == if e == 0 then filetype else 0
  {
    DiskNames(filetype, length);
    hide NamesEnd, NameOf;
  }

  lemma DiskEntries(filetype: Byte, length: nat)
    requires length < 0x1_0000
    ensures NamesEnd(SmallDisk(filetype, length)) && Lookup(SmallDisk(filetype, length), NAME) == 0
    ensures forall e {:trigger Entry(SmallDisk(filetype, length), e)} :: 0 <= e < ENTRIES ==>
      && Entry(SmallDisk(filetype, length), e).inode == 0
      && Entry(SmallDisk(filetype, length), e).filetype == if e == 0 then filetype else 0
  {
    hide SmallDisk, Word, NamesEnd, NameOf;
    DiskNames(filetype, length);
    forall e {:trigger Entry(SmallDisk(filetype, length), e)} | 0 <= e < ENTRIES
      ensures Entry(SmallDisk(filetype, length), e).inode == 0
      ensures Entry(SmallDisk(filetype, length), e).filetype == if e == 0 then filetype else 0
    {
      DiskEntry(filetype, length, e);
    }
  }

  lemma DiskIsOk(filetype: Byte, length: nat)
    requires length < 0x1_0000
    ensures DiskOk(SmallDisk(filetype, length))
  {
    hide SmallDisk, Word, NamesEnd, NameOf;
    DiskWords(filetype, length);
    DiskEntries(filetype, length);
  }

  lemma DiskIsGood()
    ensures DiskGood(SmallDisk(2, 64))
  {
    hide SmallDisk, Word, NamesEnd, NameOf, DiskOk;
    DiskWords(2, 64);
    DiskEntries(2, 64);
    DiskIsOk(2, 64);
  }

  lemma DiskByte(filetype: Byte, length: nat, p: nat)
    requires length < 0x1_0000 && p < 64
    ensures FileByte(SmallDisk(filetype, length), 0, p) == if p < 4 then MAGIC[p] else 0
  {
    DiskWords(filetype, length);
  }

  /** Four bytes of the program, read by name. */
  lemma FourBytes(filetype: Byte, length: nat, offset: nat)
    requires 64 <= length < 0x1_0000 && offset <= 60
    ensures var img := SmallDisk(filetype, length);
      NamesEnd(img) && ReadFour(img, NAME, offset, ZEROS) == Some(Slice(img, 0, offset, 4))
  {
    hide SmallDisk, Word, NamesEnd, NameOf, Slice;
    DiskWords(filetype, length);
    DiskEntries(filetype, length);
    var img := SmallDisk(filetype, length);
    assert LastBlock(offset, 4, length) == 0 && offset / UNIT == 0;
    assert !ReadFails(img, 0, offset, 4);
    assert ReadCount(img, 0, offset, 4) == 4;
    StoredBounds(img, 0, offset, 4);
    var bytes := NamedBytes(img, NAME, offset, 4);
    assert bytes + ZEROS[|bytes|..] == bytes;
  }

  lemma ProgramBytes(filetype: Byte, length: nat)
    requires length < 0x1_0000
    ensures Slice(SmallDisk(filetype, length), 0, 0, 4) == MAGIC
    ensures Slice(SmallDisk(filetype, length), 0, CODE_STARTING_POINT, 4) == ZEROS
  {
    hide SmallDisk, FileByte;
    forall p | 0 <= p < 64
      ensures FileByte(SmallDisk(filetype, length), 0, p) == if p < 4 then MAGIC[p] else 0
    {
      DiskByte(filetype, length, p);
    }
  }

  lemma EntryIsZero(filetype: Byte, length: nat)
    requires 64 <= length < 0x1_0000
    ensures var img := SmallDisk(filetype, length);
      NamesEnd(img) && EntryPoint(img, NAME, ZEROS, ZEROS) == Some(0)
  {
    hide ReadFour, SmallDisk, NamesEnd, Slice, Word;
    FourBytes(filetype, length, 0);
    FourBytes(filetype, length, CODE_STARTING_POINT);
    ProgramBytes(filetype, length);
    WordOfZeros();
  }

  lemma WordOfZeros()
    ensures Word(ZEROS, 0) == 0
  {}

  // ---- Processes ----

  function ZeroTables(): Tables {
    Tables(seq(PROCESSES, _ => seq(SIZE, _ => ZERO_PDE)), seq(SIZE, _ => ZERO_PTE), seq(SIZE, _ => ZERO_PTE), 1, 2)
  }

  /** A machine just booted with this disk. */
  function Booted(filetype: Byte, length: nat): State
    requires length < 0x1_0000
  {
    State(0, 0, 0, 0, BOTTOM_STACK, Init(ZeroTables()), seq(PROCESSES, _ => Pcb(0, 0, 0, 0, NewFiles(), [])),
          seq<Byte>(MEMORY, _ => 0), SmallDisk(filetype, length), true)
  }

  lemma BootedIsOk(filetype: Byte, length: nat)
    requires length < 0x1_0000
    ensures Booted(filetype, length).Ok()
  {
    hide SmallDisk, DiskOk, Init;
    DiskIsOk(filetype, length);
  }

  lemma BootedIsBoot()
    ensures IsBoot(Booted(2, 64))
  {
    hide SmallDisk, FitsWindow, WellFormedInode, IsImage, NamesEnd, Entry, Init;
    DiskIsGood();
    var zeroed := ZeroTables();
    assert zeroed.Ok() && ReservedClear(zeroed) && Booted(2, 64).tables == Init(zeroed);
  }

  /** "a " with these arguments behind it; `esp` is the caller's stack pointer. */
  function Command(args: seq<Byte>, esp: nat): Call {
    Call(Some([97, SPACE] + args + [0]), esp, 0, ZEROS, ZEROS)
  }

  /** execute of this command leads from `s` to `t`. */
  ghost predicate Starts(s: State, args: seq<Byte>, esp: nat, t: State) {
    s.Ok() && CallOk(s, Command(args, esp)) && Execute(s, Command(args, esp)) == (t, Entered(0))
  }

  /** halt leads from `s` to `t`. */
  ghost predicate Halts(s: State, t: State) {
    && s.Ok() && 1 <= s.counter && (s.pcbs[s.counter - 1].pid != 1 ==> 1 <= s.pcbs[s.counter - 1].parentPid)
    && t == Halt(s, 0).0
  }

  lemma CommandParses(args: seq<Byte>)
    requires 0 !in args && |args| < ARG_SIZE
    ensures var c := [97, SPACE] + args + [0]; Parses(c) && NameOfCommand(c) == NAME && ArgsOfCommand(c) == args
  {
    hide CString;
    var c := [97, SPACE] + args + [0];
    assert FirstSpace(c) == 1 by {
      assert c[1..][0] == SPACE;
    }
    assert c[2..2 + |args|] == args;
    CStringIs(c, 2, |args|);
    assert c[..1] + [0] == [97, 0] && [97, 0][0..1] == NAME;
    CStringIs([97, 0], 0, 1);
  }

  /** On the good disk every process that has room for a child can start the program. */
  lemma ProgramCanStart(s: State, args: seq<Byte>, esp: nat)
    requires Inv(s) && s.disk == SmallDisk(2, 64) && s.counter < PROCESSES && 0 !in args && |args| < ARG_SIZE
    requires esp < WRAP && (s.counter >= 1 ==> InStack(s.counter, esp))
    ensures CallOk(s, Command(args, esp)) && ArgsOfCommand([97, SPACE] + args + [0]) == args
    ensures Execute(s, Command(args, esp)).1 == Entered(0) && Inv(Execute(s, Command(args, esp)).0)
  {
    hide SmallDisk, EntryPoint, FirstSpace, Parses, Execute, NameOfCommand, ArgsOfCommand, PcbGood, SpaceGood, DiskGood,
      ReservedClear, DiskOk;
    CommandParses(args);
    EntryIsZero(2, 64);
    ExecuteSucceedsExactly(s, Command(args, esp));
    ExecuteKeepsInv(s, Command(args, esp));
  }

  /** The booted machine can execute its program, and the new process is in the invariant. */
  lemma ProgramStarts()
    ensures var s, call := Booted(2, 64), Command([98], 0);
      && IsBoot(s) && CallOk(s, call) && Execute(s, call).1 == Entered(0) && Inv(Execute(s, call).0)
  {
    hide SmallDisk, Init, Inv, IsBoot, NewFiles, Execute, CallOk;
    BootedIsBoot();
    BootInv(Booted(2, 64));
    ProgramCanStart(Booted(2, 64), [98], 0);
  }

  lemma BootedIsEmpty()
    ensures var s := Booted(2, 64);
      && s.counter == 0 && s.disk == SmallDisk(2, 64) && |s.mem| == MEMORY
      && forall a {:trigger s.mem[a]} :: MB4 <= a < 2 * MB4 ==> s.mem[a] == 0
  {
    hide SmallDisk, Init;
  }

  /** What a state of this machine is like when another program has been started in it. */
  lemma ProgramHasStarted(s: State, args: seq<Byte>, esp: nat)
    requires Inv(s) && s.disk == SmallDisk(2, 64) && s.counter < PROCESSES && 0 !in args && |args| < ARG_SIZE
    requires esp < WRAP && (s.counter >= 1 ==> InStack(s.counter, esp))
    ensures CallOk(s, Command(args, esp)) && Execute(s, Command(args, esp)).1 == Entered(0)
    ensures var t := Execute(s, Command(args, esp)).0;
      && Inv(t) && t.counter == s.counter + 1 && t.disk == s.disk && t.argSize == |args|
      && (forall a {:trigger t.mem[a]} :: MB4 <= a < 2 * MB4 ==> t.mem[a] == s.mem[a])
  {
    hide SmallDisk, PcbGood, SpaceGood, DiskGood, ReservedClear, Execute, CallOk, ArgsOfCommand, DiskOk;
    ProgramCanStart(s, args, esp);
    ArgumentsAreStored(s, Command(args, esp));
    ExecuteKeepsBelow(s, Command(args, esp));
  }

  /** The first process, "a b", and the second, its child "a bcd". */
  lemma TwoProcesses() returns (s: State, t: State)
    ensures IsBoot(Booted(2, 64)) && Starts(Booted(2, 64), [98], 0, s) && Starts(s, [98, 99, 100], Esp0(1), t)
    ensures Inv(s) && s.counter == 1 && s.argSize == 1
    ensures Inv(t) && t.counter == 2 && t.argSize == 3
    ensures forall a {:trigger t.mem[a]} :: MB4 <= a < 2 * MB4 ==> t.mem[a] == 0
  {
    hide Booted, SmallDisk, PcbGood, SpaceGood, DiskGood, ReservedClear, IsBoot, Execute, CallOk, DiskOk, Command;
    BootedIsEmpty();
    BootedIsBoot();
    BootInv(Booted(2, 64));
    ProgramHasStarted(Booted(2, 64), [98], 0);
    s := Execute(Booted(2, 64), Command([98], 0)).0;
    ProgramHasStarted(s, [98, 99, 100], Esp0(1));
    t := Execute(s, Command([98, 99, 100], Esp0(1))).0;
  }

  // ---- Disappointments ----

  /** The child has one character of the terminal stored at the address of its parent's control block: no
      test refuses that, and the parent's slot is not what it was. */
  lemma ReadReachesParent() returns (s: State, t: State)
    ensures Starts(Booted(2, 64), [98], 0, s) && Starts(s, [98, 99, 100], Esp0(1), t)
    ensures var op := ReadOp(0, PcbAddress(1), 1, Answer(1, [65]));
      && Enabled(t, op) && !Contained(t, op)
      && t.mem[PcbAddress(1)] == 0 && Step(t, op).Ok() && Step(t, op).mem[PcbAddress(1)] == 65
      && !KeepsBelow(t, Step(t, op), 1)
  {
    hide Booted, SmallDisk, PcbGood, SpaceGood, DiskGood, ReservedClear, Starts, DiskOk, Enabled, Contained, Step,
      KeepsBelow;
    s, t := TwoProcesses();
    StdinReadHits(t, 1, 65);
  }

  /** The first process writes 2000 times the letter A to stdout: wherever the line buffer lies in the
      kernel's page, the byte behind it is an A. */
  lemma WriteOverrunsLineBuffer(lineBuffer: nat) returns (s: State)
    requires MB4 <= lineBuffer <= 2 * MB4 - 2000
    ensures Starts(Booted(2, 64), [98], 0, s)
    ensures var op := LongWrite(lineBuffer, 65);
      && Enabled(s, op) && !Contained(s, op)
      && s.mem[lineBuffer + LINE_BUFFER_SIZE] == 0
      && Step(s, op).Ok() && Step(s, op).mem[lineBuffer + LINE_BUFFER_SIZE] == 65
  {
    hide Booted, SmallDisk, PcbGood, SpaceGood, DiskGood, ReservedClear, Starts, DiskOk, Enabled, Contained, Step,
      KeepsBelow, LongWrite;
    s := OneProcess();
    LongWriteHits(s, lineBuffer, 65);
  }

  lemma OneProcess() returns (s: State)
    ensures Starts(Booted(2, 64), [98], 0, s) && Inv(s) && s.counter == 1
    ensures forall a {:trigger s.mem[a]} :: MB4 <= a < 2 * MB4 ==> s.mem[a] == 0
  {
    hide Booted, SmallDisk, PcbGood, SpaceGood, DiskGood, ReservedClear, IsBoot, Execute, CallOk, DiskOk, Command;
    BootedIsEmpty();
    BootedIsBoot();
    BootInv(Booted(2, 64));
    ProgramHasStarted(Booted(2, 64), [98], 0);
    s := Execute(Booted(2, 64), Command([98], 0)).0;
  }

  /** The parent asks for its one byte of arguments: granted before its child ran, refused afterwards. */
  lemma GetArgsChangesItsAnswer() returns (s: State, child: State, t: State)
    ensures Starts(Booted(2, 64), [98], 0, s) && Starts(s, [98, 99, 100], Esp0(1), child)
    ensures Halts(child, t) && Inv(s) && Inv(t)
    ensures s.counter == t.counter == 1 && |s.pcbs| == |t.pcbs| == PROCESSES && t.pcbs[0] == s.pcbs[0]
    ensures GetArgs(s, USER_START, 1).1 == 0 && GetArgs(t, USER_START, 1).1 == -1
  {
    hide Booted, SmallDisk, PcbGood, SpaceGood, DiskGood, ReservedClear, Execute, CallOk, DiskOk, ArgsOfCommand,
      Parsed, RunEnabled, StaysAbove, RunContained, Run, KeepsBelow, Stored, Padded, Command;
    s, child := TwoProcesses();
    HaltKeepsInv(child, 0);
    t := Halt(child, 0).0;
    EmptyRun(child, 1);
    var call := Command([98, 99, 100], Esp0(1));
    GetArgsAfterChild(s, call, child, [], child, 0, USER_START, 1);
    ParentIsRestored(s, call, child, [], child, 0, 0, 1);
    ArgumentsAreStored(s, call);
  }

  lemma EmptyRun(s: State, k: nat)
    requires s.counter > k
    ensures RunEnabled(s, []) && StaysAbove(s, [], k) && RunContained(s, []) && Run(s, []) == s && Parsed(s, []) == []
  {}

  /** The program of 5000 bytes passes all checks, but its second block does not exist: execute is refused
      and yet a process is counted. */
  lemma LoadCanFail()
    ensures var s, call := Booted(2, 5000), Command([98], 0);
      && s.Ok() && CallOk(s, call) && EntryPoint(s.disk, NAME, ZEROS, ZEROS).Some? && LoadCount(s.disk, NAME) == FAIL
      && Execute(s, call).1 == Refused && s.counter == 0 && Execute(s, call).0.counter == 1
  {
    hide SmallDisk, EntryPoint, LoadCount, FirstSpace, Parses, NameOfCommand, ArgsOfCommand, DiskOk, Execute, Init;
    BootedIsOk(2, 5000);
    CommandParses([98]);
    EntryIsZero(2, 5000);
    SecondBlockIsMissing();
    FailedLoadIsNotRolledBack(Booted(2, 5000), Command([98], 0));
  }

  lemma SecondBlockIsMissing()
    ensures NamesEnd(SmallDisk(2, 5000)) && LoadCount(SmallDisk(2, 5000), NAME) == FAIL
  {
    hide SmallDisk, Word, NamesEnd, NameOf;
    DiskWords(2, 5000);
    DiskEntries(2, 5000);
    var img := SmallDisk(2, 5000);
    assert LastBlock(0, 5000, 5000) == 1;
    assert !BlocksOk(img, 0, 0, 1);
  }

  /** An entry of type 3: its file gets a descriptor that is in use and has no operations. execute does not
      look at the type; the process is the first one of this machine. */
  lemma UnknownTypeHasNoOperations() returns (s: State)
    ensures Starts(Booted(3, 64), [98], 0, s)
    ensures s.Ok() && s.counter == 1 && |Files(s)| == 8
    ensures var (t, fd) := Open(s, NAME);
      fd == 2 && t.counter == 1 && |t.pcbs| == PROCESSES && |Files(t)| == 8
      && Files(t)[2].used && Files(t)[2].ops == NoOps
  {
    hide SmallDisk, DiskOk, Init, FindFrom, Starts;
    DiskEntries(3, 64);
    s := FirstProcess();
    FirstVacant();
  }

  lemma FirstProcess() returns (s: State)
    ensures Starts(Booted(3, 64), [98], 0, s)
    ensures s.Ok() && s.counter == 1 && s.pcbs[0].files == NewFiles() && s.disk == SmallDisk(3, 64)
  {
    hide Booted, SmallDisk, EntryPoint, LoadCount, FirstSpace, Parses, NameOfCommand, ArgsOfCommand, DiskOk, Execute;
    BootedIsOk(3, 64);
    BootedDisk(3, 64);
    CommandParses([98]);
    EntryIsZero(3, 64);
    OneBlockLoads();
    FirstStarts(Booted(3, 64), Command([98], 0), 0);
    s := Execute(Booted(3, 64), Command([98], 0)).0;
  }

  lemma BootedDisk(filetype: Byte, length: nat)
    requires length < 0x1_0000
    ensures Booted(filetype, length).counter == 0 && Booted(filetype, length).disk == SmallDisk(filetype, length)
  {
    hide SmallDisk, Init;
  }

  lemma FirstStarts(s: State, call: Call, entry: nat)
    requires s.Ok() && CallOk(s, call) && s.counter == 0 && call.command.Some?
    requires EntryPoint(s.disk, NameOfCommand(call.command.value), call.temp, call.buf) == Some(entry)
    requires LoadCount(s.disk, NameOfCommand(call.command.value)) != FAIL
    ensures var (t, r) := Execute(s, call);
      r == Entered(entry) && t.Ok() && t.counter == 1 && t.pcbs[0].files == NewFiles() && t.disk == s.disk
  {
    hide EntryPoint, LoadCount, LoadedBytes, FirstSpace, Parses, NameOfCommand, ArgsOfCommand, DiskOk, Create, StoreAll,
      Lookup;
  }

  lemma OneBlockLoads()
    ensures NamesEnd(SmallDisk(3, 64)) && LoadCount(SmallDisk(3, 64), NAME) == 64
  {
    hide SmallDisk, Word, NamesEnd, NameOf;
    DiskWords(3, 64);
    DiskEntries(3, 64);
    assert LastBlock(0, 64, 64) == 0;
  }

  lemma FirstVacant()
    ensures Vacant(NewFiles(), 2) == 2
  {}
}
