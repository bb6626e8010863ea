/** What every run of system calls and program stores keeps. */
module KernelRuns {
  import opened Bytes
  import opened Buffers
  import opened Paging
  import opened FileSystems
  import opened KernelSpec

  datatype Op = ExecuteOp(call: Call) | HaltOp(status: Byte) | ReadOp(fd: int, buf: nat, n: int, device: Answer)
              | OpenOp(name: seq<Byte>) | CloseOp(fd: int) | GetArgsOp(buf: nat, n: int) | VidmapOp(screenStart: nat)
              | StoreOp(la: nat, b: Byte)
              | WriteOp(fd: int, buf: nat, n: int, data: seq<Byte>, devices: Devices)

  // ---- The invariant ----

  /** A disk whose entries all have a known type and a well-formed inode. */
  ghost predicate DiskGood(img: seq<Byte>) {
    && DiskOk(img)
    && forall e {:trigger Entry(img, e)} :: 0 <= e < ENTRIES ==>
         Entry(img, e).filetype <= 2 && WellFormedInode(img, Entry(img, e).inode)
  }

  /** A descriptor above stdout is in use exactly when it has an operation table, and an open file's
      name still leads to the inode found when it was opened. */
  ghost predicate FdGood(img: seq<Byte>, f: Fd)
    requires NamesEnd(img)
  {
    && f.ops !in {StdinOps, StdoutOps} && (f.used <==> f.ops != NoOps) && (!f.used ==> f == CLOSED)
    && (f.ops == FileOps ==> Lookup(img, f.name) != -1 && Entry(img, Lookup(img, f.name)).inode == f.inode)
  }

  ghost predicate FilesGood(img: seq<Byte>, files: seq<Fd>)
    requires NamesEnd(img)
  {
    && |files| == 8 && files[0].ops == StdinOps && files[0].used && files[1].ops == StdoutOps && files[1].used
    && forall fd {:trigger files[fd]} :: 2 <= fd < 8 ==> FdGood(img, files[fd])
  }

  /** The control block of process k. */
  ghost predicate PcbGood(img: seq<Byte>, pcb: Pcb, k: nat)
    requires NamesEnd(img)
  {
    && pcb.pid == k && pcb.parentPid == k - 1 && (k > 1 ==> InStack(k - 1, pcb.parentEsp))
    && FilesGood(img, pcb.files) && |pcb.arg| < ARG_SIZE
  }

  predicate HasVideo(t: Tables, k: nat)
    requires t.Ok() && 1 <= k <= PROCESSES
  {
    t.dirs[k - 1][VIDEO_MEM].present
  }

  /** The page directory of process k. */
  ghost predicate SpaceGood(t: Tables, k: nat)
    requires t.Ok() && 1 <= k <= PROCESSES
  {
    HasShape(t, k - 1, k + 1, HasVideo(t, k))
  }

  ghost predicate Inv(s: State) {
    && s.Ok() && s.intact && DiskGood(s.disk) && ReservedClear(s.tables)
    && (s.counter >= 1 ==> s.cr3 == s.counter - 1 && s.esp0 == Esp0(s.counter))
    && (forall k {:trigger SpaceGood(s.tables, k)} :: 1 <= k <= s.counter ==> SpaceGood(s.tables, k))
    && (forall k {:trigger s.pcbs[k - 1]} :: 1 <= k <= s.counter ==> PcbGood(s.disk, s.pcbs[k - 1], k))
  }

  /** A read or write gets to its operation: the descriptor is in use and the buffer not NULL. */
  predicate Reaches(s: State, fd: int, buf: nat)
    requires 1 <= s.counter <= |s.pcbs| && |Files(s)| == 8
  {
    0 <= fd <= 7 && buf != 0 && Files(s)[fd].used
  }

  ghost predicate ReadEnabled(s: State, fd: int, buf: nat, n: int, device: Answer)
    requires Inv(s) && 1 <= s.counter
  {
    CurrentFiles(s);
    && -0x8000_0000 <= n < 0x8000_0000 && -1 <= device.value < 0x8000_0000
    && (Reaches(s, fd, buf) ==>
          && Files(s)[fd].ops !in {NoOps, StdoutOps}
          && AllPresent(buf, |ReadBytes(s.disk, Files(s)[fd], Unsigned(n), device)|, HasVideo(s.tables, s.counter)))
  }

  /** The descriptor has a write operation; for stdout the program's bytes are there and their places in the
      kernel's page too. */
  ghost predicate WriteEnabled(s: State, fd: int, buf: nat, n: int, data: seq<Byte>, devices: Devices)
    requires Inv(s) && 1 <= s.counter
  {
    CurrentFiles(s);
    && -0x8000_0000 <= n < 0x8000_0000 && |data| == (if n < 0 then 0 else n)
    && (Reaches(s, fd, buf) ==>
          var ops, video := Files(s)[fd].ops, HasVideo(s.tables, s.counter);
          && ops !in {NoOps, StdinOps} && (ops == RtcOps && n == 4 ==> AllPresent(buf, 4, video))
          && (ops == StdoutOps ==>
                && AllPresent(buf, |data|, video) && |devices.screen| == SCREEN_SIZE
                && MB4 <= devices.lineBuffer <= devices.lineBuffer + LINE_BUFFER_SIZE <= 2 * MB4
                && devices.lineBuffer + |data| <= 2 * MB4))
  }

  /** What the code leaves to its callers: a process to serve, a command with a space and a NUL, descriptors
      with an operation, 32-bit addresses, and buffers whose pages are there: the handler of a page
      fault never returns. */
  ghost predicate Enabled(s: State, op: Op) {
    && Inv(s) && (op.ExecuteOp? || s.counter >= 1)
    && match op
       case ExecuteOp(call) => CallOk(s, call)
       case ReadOp(fd, buf, n, device) => ReadEnabled(s, fd, buf, n, device)
       case GetArgsOp(buf, n) => buf != 0 && n >= s.argSize ==> AllPresent(buf, n, HasVideo(s.tables, s.counter))
       case StoreOp(la, _) => la < WRAP
       case WriteOp(fd, buf, n, data, devices) => WriteEnabled(s, fd, buf, n, data, devices)
       case _ => true
  }

  /** The kernel stores nothing of what the program asks for in its own page. */
  ghost predicate Contained(s: State, op: Op)
    requires Enabled(s, op)
  {
    match op
    case ReadOp(fd, buf, n, device) =>
      CurrentFiles(s);
      Reaches(s, fd, buf) ==> Spares(buf, |ReadBytes(s.disk, Files(s)[fd], Unsigned(n), device)|)
    case GetArgsOp(buf, n) => buf != 0 && n >= s.argSize ==> Spares(buf, n)
    case WriteOp(fd, buf, n, data, devices) =>
      CurrentFiles(s);
      Reaches(s, fd, buf) && Files(s)[fd].ops == StdoutOps ==> |data| <= LINE_BUFFER_SIZE
    case _ => true
  }

  ghost function Step(s: State, op: Op): State
    requires Enabled(s, op)
  {
    match op
    case ExecuteOp(call) => Execute(s, call).0
    case HaltOp(status) => Halt(s, status).0
    case ReadOp(fd, buf, n, device) => Read(s, fd, buf, n, device).0
    case OpenOp(name) => Open(s, name).0
    case CloseOp(fd) => Close(s, fd).0
    case GetArgsOp(buf, n) => GetArgs(s, buf, n).0
    case VidmapOp(a) => Vidmap(s, a).0
    case StoreOp(la, b) => Store(s, la, b)
    case WriteOp(fd, buf, n, data, devices) =>
      CurrentFiles(s);
      Write(s, fd, buf, n, data, devices).0
  }

  // ---- Loading ----

  /** On any disk: after the checks execute makes first, the load fails exactly when a block of the file
      (or its inode) does not exist. */
  lemma LoadFailsOnMissingBlock(img: seq<Byte>, name: seq<Byte>)
    requires DiskOk(img) && Lookup(img, name) != -1
    ensures var inode := Entry(img, Lookup(img, name)).inode;
      LoadCount(img, name) == FAIL <==>
        0 < FileLength(img, inode) &&
        (inode >= InodesNum(img)
         || exists k :: 0 <= k && k * UNIT < FileLength(img, inode) && BlockNo(img, inode, k) >= BlocksNum(img))
  {
    var inode := Entry(img, Lookup(img, name)).inode;
    var n := FileLength(img, inode);
    if 0 < n {
      assert LastBlock(0, n, n) == (n - 1) / UNIT;
      assert forall k :: 0 <= k ==> (k * UNIT < n <==> k <= (n - 1) / UNIT);
    }
  }

  lemma LoadSucceeds(img: seq<Byte>, name: seq<Byte>)
    requires DiskGood(img) && Lookup(img, name) != -1
    ensures LoadCount(img, name) == LengthOf(img, name)
  {
    var inode := Entry(img, Lookup(img, name)).inode;
    assert WellFormedInode(img, inode);
    WellFormedReads(img, inode, 0, FileLength(img, inode));
  }

  /** On a good disk execute gives up only before it has changed anything but `arg_size`. */
  lemma RefusedExecuteChangesNothing(s: State, call: Call)
    requires Inv(s) && CallOk(s, call) && Execute(s, call).1 == Refused
    ensures Execute(s, call).0 == s.(argSize := Execute(s, call).0.argSize)
  {
    if s.counter < PROCESSES && call.command.Some? {
      var name := NameOfCommand(call.command.value);
      if EntryPoint(s.disk, name, call.temp, call.buf).Some? {
        LoadSucceeds(s.disk, name);
      }
    }
  }

  /** On a good disk execute starts the program exactly when there is room for a process and the checks of
      the file pass; the program starts at the entry point found in the file. */
  lemma ExecuteSucceedsExactly(s: State, call: Call)
    requires Inv(s) && CallOk(s, call)
    ensures var command, r := call.command, Execute(s, call).1;
      r == if s.counter == PROCESSES || command == None then Refused else
             match EntryPoint(s.disk, NameOfCommand(command.value), call.temp, call.buf)
             case None => Refused
             case Some(entry) => Entered(entry)
  {
    hide EntryPoint, Admitted, Launched, LoadCount, LengthOf, FirstSpace, FindFrom, PcbGood, SpaceGood, ReservedClear;
    if s.counter < PROCESSES && call.command.Some? {
      var name := NameOfCommand(call.command.value);
      if EntryPoint(s.disk, name, call.temp, call.buf).Some? {
        LoadSucceeds(s.disk, name);
      }
    }
  }

  /** On a disk that is merely memory-safe: once the checks have passed, execute is refused exactly when
      the load fails, and then the process counter stays raised and CR3 stays switched. */
  lemma FailedLoadIsNotRolledBack(s: State, call: Call)
    requires s.Ok() && CallOk(s, call) && s.counter < PROCESSES && call.command.Some?
    requires EntryPoint(s.disk, NameOfCommand(call.command.value), call.temp, call.buf).Some?
    ensures var (t, r) := Execute(s, call);
      && (r == Refused <==> LoadCount(s.disk, NameOfCommand(call.command.value)) == FAIL)
      && t.counter == s.counter + 1 && t.cr3 == s.counter
      && (r == Refused ==> t.pcbs == s.pcbs && t.esp0 == s.esp0)
  {
    hide DiskOk, EntryPoint, LoadCount, LoadedBytes, Create, FindFrom, FirstSpace;
  }

  // ---- Every step keeps the invariant ----

  lemma NewFilesGood(img: seq<Byte>)
    requires NamesEnd(img)
    ensures FilesGood(img, NewFiles())
  {}

  lemma NewPcb(s: State, call: Call)
    requires Inv(s) && CallOk(s, call) && Execute(s, call).1.Entered?
    ensures var k := s.counter + 1; var t := Execute(s, call).0;
      && k <= PROCESSES && t.counter == k && PcbGood(s.disk, t.pcbs[k - 1], k)
      && t.pcbs == s.pcbs[k - 1 := t.pcbs[k - 1]]
      && t.pcbs[k - 1].parentEsp == call.esp && t.pcbs[k - 1].parentEbp == call.ebp
      && t.tables == Create(s.tables, k) && t.cr3 == k - 1 && t.esp0 == Esp0(k) && t.disk == s.disk && t.intact
      && (k > 1 ==> t.shellEntry == s.shellEntry)
  {
    hide FitsWindow, IsImage, SpaceGood, ReservedClear, Create, EntryPoint, LoadCount, NamedBytes, FilesGood,
      StoreAll, FindFrom, FirstSpace, WellFormedInode;
    NewFilesGood(s.disk);
    if s.counter >= 1 {
      MaskInStack(s.counter, call.esp);
      assert PcbGood(s.disk, s.pcbs[s.counter - 1], s.counter);
    }
  }

  lemma CreateKeepsSpaces(t: Tables, k: nat)
    requires t.Ok() && ReservedClear(t) && 1 <= k <= PROCESSES
    requires forall j {:trigger SpaceGood(t, j)} :: 1 <= j < k ==> SpaceGood(t, j)
    ensures ReservedClear(Create(t, k)) && !HasVideo(Create(t, k), k)
    ensures forall j {:trigger SpaceGood(Create(t, k), j)} :: 1 <= j <= k ==> SpaceGood(Create(t, k), j)
  {
    CreateShape(t, k);
    forall j | 1 <= j < k ensures SpaceGood(Create(t, k), j) {
      assert SpaceGood(t, j);
      OthersKeepShape(t, k, j - 1, j + 1, HasVideo(t, j));
    }
  }

  /** A process more, with a good control block, over tables made for it. */
  lemma OneMoreProcess(s: State, t: State)
    requires Inv(s) && t.Ok() && t.intact && t.counter == s.counter + 1 && t.disk == s.disk
    requires PcbGood(s.disk, t.pcbs[s.counter], t.counter) && t.pcbs == s.pcbs[s.counter := t.pcbs[s.counter]]
    requires t.tables == Create(s.tables, t.counter) && t.cr3 == s.counter && t.esp0 == Esp0(t.counter)
    ensures Inv(t)
  {
    hide Create, PcbGood, SpaceGood, DiskGood, ReservedClear, IsImage, FitsWindow;
    CreateKeepsSpaces(s.tables, t.counter);
    forall j {:trigger t.pcbs[j - 1]} | 1 <= j <= t.counter ensures PcbGood(t.disk, t.pcbs[j - 1], j) {
      if j <= s.counter {
        assert t.pcbs[j - 1] == s.pcbs[j - 1] && PcbGood(s.disk, s.pcbs[j - 1], j);
      }
    }
  }

  lemma ExecuteKeepsInv(s: State, call: Call)
    requires Inv(s) && CallOk(s, call)
    ensures Inv(Execute(s, call).0)
  {
    hide PcbGood, SpaceGood, DiskGood, ReservedClear, EntryPoint, LoadCount, LoadedBytes, Create, StoreAll, DiskOk;
    if Execute(s, call).1 == Refused {
      RefusedExecuteChangesNothing(s, call);
      ArgSizeKeepsInv(s, Execute(s, call).0.argSize);
    } else {
      NewPcb(s, call);
      OneMoreProcess(s, Execute(s, call).0);
    }
  }

  lemma ArgSizeKeepsInv(s: State, n: nat)
    requires Inv(s)
    ensures Inv(s.(argSize := n))
  {
    hide PcbGood, SpaceGood, DiskGood, ReservedClear;
  }

  lemma HaltKeepsInv(s: State, status: Byte)
    requires Inv(s) && 1 <= s.counter
    ensures s.pcbs[s.counter - 1].pid != 1 ==> 1 <= s.pcbs[s.counter - 1].parentPid
    ensures var (t, r) := Halt(s, status);
      && Inv(t) && t.pcbs == s.pcbs && t.tables == s.tables
      && (if s.counter == 1 then t == Shown(s, ClearedScreen()) && r == ShellAgain(s.shellEntry)
          else t.counter == s.counter - 1 && t.mem == s.mem
               && r == Back(s.pcbs[s.counter - 1].parentEsp, s.pcbs[s.counter - 1].parentEbp, status))
  {
    hide FilesGood, DiskGood, SpaceGood, ReservedClear, StoreAll;
    assert PcbGood(s.disk, s.pcbs[s.counter - 1], s.counter);
  }

  /** Replacing a descriptor of the current process by a good one. */
  lemma SetFileKeepsInv(s: State, fd: nat, f: Fd)
    requires Inv(s) && 1 <= s.counter && fd < 8
    requires if fd == 0 then f.ops == StdinOps && f.used else if fd == 1 then f.ops == StdoutOps && f.used
             else FdGood(s.disk, f)
    ensures |Files(s)| == 8 && Inv(SetFile(s, fd, f))
  {
    var k := s.counter;
    assert PcbGood(s.disk, s.pcbs[k - 1], k);
    assert FilesGood(s.disk, Files(s)[fd := f]);
    assert PcbGood(s.disk, SetFile(s, fd, f).pcbs[k - 1], k);
    hide PcbGood, DiskGood, SpaceGood, ReservedClear;
  }

  lemma CurrentFiles(s: State)
    requires Inv(s) && 1 <= s.counter
    ensures |Files(s)| == 8 && FilesGood(s.disk, Files(s))
  {
    assert PcbGood(s.disk, s.pcbs[s.counter - 1], s.counter);
  }

  /** A store for the program keeps the fields as they must be; the state stays intact, by definition, exactly
      when the store spares the kernel's page. */
  lemma StoredKeepsInv(s: State, la: nat, data: seq<Byte>)
    requires Inv(s)
    ensures Inv(Stored(s, la, data)) <==> Spares(la, |data|)
  {
    hide PcbGood, SpaceGood, DiskGood, ReservedClear, Spares, StoreAll;
  }

  lemma ReadKeepsInv(s: State, fd: int, buf: nat, n: int, device: Answer)
    requires Enabled(s, ReadOp(fd, buf, n, device))
    ensures |Files(s)| == 8 && (Inv(Read(s, fd, buf, n, device).0) <==> Contained(s, ReadOp(fd, buf, n, device)))
  {
    hide ReadResult, ReadBytes, SpaceGood, DiskGood, ReservedClear, Spares, StoreAll, AllPresent;
    CurrentFiles(s);
    if Reaches(s, fd, buf) {
      var f := Files(s)[fd];
      assert fd >= 2 ==> FdGood(s.disk, f);
      var g := ReadFd(s.disk, f, Unsigned(n), device).0;
      SetFileKeepsInv(s, fd, g);
      StoredKeepsInv(SetFile(s, fd, g), buf, ReadBytes(s.disk, f, Unsigned(n), device));
    }
  }

  lemma GetArgsKeepsInv(s: State, buf: nat, n: int)
    requires Enabled(s, GetArgsOp(buf, n))
    ensures Inv(GetArgs(s, buf, n).0) <==> Contained(s, GetArgsOp(buf, n))
  {
    hide PcbGood, SpaceGood, DiskGood, ReservedClear, Spares, AllPresent;
    if buf != 0 && n >= s.argSize {
      StoredKeepsInv(s, buf, Padded(s.pcbs[s.counter - 1].arg, n));
    }
  }

  lemma OpenKeepsInv(s: State, name: seq<Byte>)
    requires Inv(s) && 1 <= s.counter
    ensures |Files(s)| == 8 && Inv(Open(s, name).0)
  {
    CurrentFiles(s);
    var files := Files(s);
    if First(name, 5) == STDIN_5 {
      SetFileKeepsInv(s, 0, files[0].(ops := StdinOps, used := true));
    } else if First(name, 5) == STDOUT_5 {
      SetFileKeepsInv(s, 1, files[1].(ops := StdoutOps, used := true));
    } else if Lookup(s.disk, name) != -1 && Vacant(files, 2) != -1 {
      var d := Entry(s.disk, Lookup(s.disk, name));
      assert d.filetype <= 2;
      SetFileKeepsInv(s, Vacant(files, 2), Fd(OpsOf(d.filetype, files[Vacant(files, 2)].ops), name, d.inode, 0, true));
    }
  }

  lemma CloseKeepsInv(s: State, fd: int)
    requires Inv(s) && 1 <= s.counter
    ensures |Files(s)| == 8 && Inv(Close(s, fd).0)
  {
    CurrentFiles(s);
    if 2 <= fd <= 7 {
      SetFileKeepsInv(s, fd, CLOSED);
    }
  }

  lemma MapVideoKeepsSpaces(t: Tables, k: nat, n: nat)
    requires t.Ok() && ReservedClear(t) && 1 <= k <= n <= PROCESSES
    requires forall j {:trigger SpaceGood(t, j)} :: 1 <= j <= n ==> SpaceGood(t, j)
    ensures ReservedClear(MapVideo(t, k)) && HasVideo(MapVideo(t, k), k)
    ensures forall j {:trigger SpaceGood(MapVideo(t, k), j)} :: 1 <= j <= n ==> SpaceGood(MapVideo(t, k), j)
  {
    assert SpaceGood(t, k);
    MapVideoShape(t, k, k + 1, HasVideo(t, k));
    forall j | 1 <= j <= n ensures SpaceGood(MapVideo(t, k), j) {
      assert SpaceGood(t, j);
      if j != k {
        OthersKeepShape(t, k, j - 1, j + 1, HasVideo(t, j));
      }
    }
  }

  lemma VidmapKeepsInv(s: State, a: nat)
    requires Enabled(s, VidmapOp(a))
    ensures Inv(Vidmap(s, a).0)
  {
    hide MapVideo, PcbGood, SpaceGood, DiskGood, ReservedClear, StoreAll;
    MapVideoKeepsSpaces(s.tables, s.counter, s.counter);
  }

  lemma WriteKeepsInv(s: State, fd: int, buf: nat, n: int, data: seq<Byte>, devices: Devices)
    requires Enabled(s, WriteOp(fd, buf, n, data, devices))
    ensures |Files(s)| == 8
    ensures Inv(Write(s, fd, buf, n, data, devices).0) <==> Contained(s, WriteOp(fd, buf, n, data, devices))
  {
    hide PcbGood, SpaceGood, DiskGood, ReservedClear, StoreAll, AllPresent;
    CurrentFiles(s);
  }

  /** In every state of a run, a contained step leads to such a state again; any other is marked. */
  lemma StepKeepsInv(s: State, op: Op)
    requires Enabled(s, op)
    ensures Inv(Step(s, op)) <==> Contained(s, op)
    ensures Step(s, op).disk == s.disk
  {
    hide PcbGood, SpaceGood, DiskGood, ReservedClear, Walk, ReadBytes, ReadResult, Spares, AllPresent, StoreAll, Padded,
      EntryPoint, LoadCount, FindFrom, MapVideo;
    match op
    case ExecuteOp(call) => ExecuteKeepsInv(s, call);
    case HaltOp(status) => HaltKeepsInv(s, status);
    case ReadOp(fd, buf, n, device) => ReadKeepsInv(s, fd, buf, n, device);
    case OpenOp(name) => OpenKeepsInv(s, name);
    case CloseOp(fd) => CloseKeepsInv(s, fd);
    case GetArgsOp(buf, n) => GetArgsKeepsInv(s, buf, n);
    case VidmapOp(a) => VidmapKeepsInv(s, a);
    case StoreOp(la, b) =>
    case WriteOp(fd, buf, n, data, devices) => WriteKeepsInv(s, fd, buf, n, data, devices);
  }

  ghost predicate RunEnabled(s: State, ops: seq<Op>)
    decreases |ops|
  {
    ops == [] || (Enabled(s, ops[0]) && RunEnabled(Step(s, ops[0]), ops[1..]))
  }

  ghost function Run(s: State, ops: seq<Op>): State
    requires RunEnabled(s, ops)
    decreases |ops|
  {
    if ops == [] then s else Run(Step(s, ops[0]), ops[1..])
  }

  /** Every step of the run is contained. */
  ghost predicate RunContained(s: State, ops: seq<Op>)
    requires RunEnabled(s, ops)
    decreases |ops|
  {
    ops == [] || (Contained(s, ops[0]) && RunContained(Step(s, ops[0]), ops[1..]))
  }

  lemma {:induction false} RunKeepsInv(s: State, ops: seq<Op>)
    requires Inv(s) && RunEnabled(s, ops)
    ensures Inv(Run(s, ops)) <==> RunContained(s, ops)
    decreases |ops|
  {
    if ops != [] {
      StepKeepsInv(s, ops[0]);
      var t := Step(s, ops[0]);
      assert ops[1..] == [] || Enabled(t, ops[1..][0]);
      if Inv(t) {
        hide Inv, Enabled, Step, Contained;
        RunKeepsInv(t, ops[1..]);
      }
    }
  }

  /** Once there is a process there always is one: the first restarts instead of ending. */
  lemma {:induction false} SomeProcessStays(s: State, ops: seq<Op>)
    requires Inv(s) && 1 <= s.counter && RunEnabled(s, ops)
    ensures 1 <= Run(s, ops).counter
    decreases |ops|
  {
    if ops != [] {
      StepLeavesProcess(s, ops[0]);
      if ops[1..] != [] {
        assert Enabled(Step(s, ops[0]), ops[1..][0]);
        hide Inv, Enabled, Step;
        SomeProcessStays(Step(s, ops[0]), ops[1..]);
      }
    }
  }

  lemma StepLeavesProcess(s: State, op: Op)
    requires Enabled(s, op) && 1 <= s.counter
    ensures 1 <= Step(s, op).counter
  {
    hide SpaceGood, DiskGood, ReservedClear, Walk, StoreAll, EntryPoint, LoadCount, FindFrom, MapVideo, ReadBytes,
      ReadResult, Padded, PcbGood, LoadedBytes, FirstSpace, DiskOk, AllPresent, Spares, Create;
    if op.HaltOp? {
      HaltKeepsInv(s, op.status);
    }
  }

  /** The machine when the kernel has booted: paging initialised over zeroed tables, no process. */
  ghost predicate IsBoot(s: State) {
    && s.Ok() && s.intact && DiskGood(s.disk) && s.counter == 0 && s.esp0 == BOTTOM_STACK && s.cr3 == 0
    && exists zeroed: Tables :: zeroed.Ok() && ReservedClear(zeroed) && s.tables == Init(zeroed)
  }

  lemma BootInv(s: State)
    requires IsBoot(s)
    ensures Inv(s)
  {
    var zeroed: Tables :| zeroed.Ok() && ReservedClear(zeroed) && s.tables == Init(zeroed);
    InitShape(zeroed);
    hide ReservedClear, HasShape, Init, DiskGood;
  }

  lemma ProcessOf(t: State, k: nat, la: nat)
    requires Inv(t) && 1 <= k <= t.counter && la < WRAP
    ensures t.pcbs[k - 1].pid == k && t.pcbs[k - 1].parentPid == k - 1
    ensures Walk(t.tables, k - 1, la) == Space(k + 1, HasVideo(t.tables, k), la)
  {
    assert PcbGood(t.disk, t.pcbs[k - 1], k);
    assert SpaceGood(t.tables, k);
    WalkIsSpace(t.tables, k - 1, k + 1, HasVideo(t.tables, k), la);
    hide FilesGood, Walk, Space, HasShape, DiskGood;
  }

  /** What CR3 makes of an address: the present ones, and where the model's stores for programs go. */
  lemma TranslationIsPhys(s: State, la: nat)
    requires Inv(s) && 1 <= s.counter && la < WRAP
    ensures Walk(s.tables, s.cr3, la) ==
      if Present(la, HasVideo(s.tables, s.counter)) then Mapped(Phys(s.counter, la), !InKernelPage(la), true) else Fault
  {
    hide PcbGood, SpaceGood, DiskGood, ReservedClear, Walk, HasVideo, Space;
    ProcessOf(s, s.counter, la);
    SpaceIsPhys(s.counter, HasVideo(s.tables, s.counter), la);
  }

  /** Every state of every contained run from boot: at most six processes, CR3 and esp0 those of the last
      one, every live one with its own pid, its predecessor as parent, and exactly its own address space.
      After any other run the state is marked: its fields no longer stand for the kernel's page. */
  lemma ReachableStates(s: State, ops: seq<Op>, k: nat, la: nat)
    requires IsBoot(s) && RunEnabled(s, ops) && la < WRAP
    ensures var t := Run(s, ops);
      && (Inv(t) <==> RunContained(s, ops))
      && (RunContained(s, ops) ==>
            && t.counter <= PROCESSES
            && (1 <= t.counter ==> t.cr3 == t.counter - 1 && t.esp0 == Esp0(t.counter))
            && (1 <= k <= t.counter ==>
                  && t.pcbs[k - 1].pid == k && t.pcbs[k - 1].parentPid == k - 1
                  && Walk(t.tables, k - 1, la) == Space(k + 1, HasVideo(t.tables, k), la)))
  {
    BootInv(s);
    RunKeepsInv(s, ops);
    if RunContained(s, ops) && 1 <= k <= Run(s, ops).counter {
      ProcessOf(Run(s, ops), k, la);
    }
    hide Run, RunEnabled, RunContained, IsBoot, Walk, Space, DiskGood, PcbGood, SpaceGood;
  }

  /** The control block and stack of a process, and its kernel stack pointers, are in its own 8 KB slot
      below 8 MB; slots of different processes are disjoint. */
  lemma SlotsAreDisjoint(j: nat, k: nat, a: int, esp: nat)
    requires 1 <= j <= PROCESSES && 1 <= k <= PROCESSES && InStack(k, esp)
    ensures MB4 <= PcbAddress(k) < esp < PcbAddress(k) + STACK_SIZE <= BOTTOM_STACK
    ensures Mask(esp) == PcbAddress(k) && InStack(k, Esp0(k))
    ensures PcbAddress(j) <= a < PcbAddress(j) + STACK_SIZE && PcbAddress(k) <= a < PcbAddress(k) + STACK_SIZE
            ==> j == k
  {
    MaskInStack(k, esp);
  }
}
