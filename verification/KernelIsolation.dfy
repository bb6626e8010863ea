/** Isolation of processes from each other, and what a process finds again when its child has ended. */
module KernelIsolation {
  import opened Bytes
  import opened Buffers
  import opened Paging
  import opened FileSystems
  import opened KernelSpec
  import opened KernelRuns

  // ---- One step ----

  /** Nothing that belongs to the processes 1 to k has changed: control blocks, page directories, page
      table, memory frames; and nothing has been stored in the page of the kernel, where their control
      blocks and kernel stacks are. */
  ghost predicate KeepsBelow(s: State, t: State, k: nat)
    requires s.Ok() && t.Ok() && k <= PROCESSES
  {
    && t.disk == s.disk && (1 <= k ==> t.shellEntry == s.shellEntry)
    && t.pcbs[..k] == s.pcbs[..k] && t.tables.dirs[..k] == s.tables.dirs[..k]
    && (1 <= k ==> t.tables.shell == s.tables.shell)
    && t.tables.shellPage == s.tables.shellPage && t.tables.videoPage == s.tables.videoPage
    && forall a {:trigger t.mem[a]} :: MB4 <= a < (k + 2) * MB4 ==> t.mem[a] == s.mem[a]
  }

  lemma KeepsBelowTransitive(s: State, t: State, u: State, k: nat)
    requires s.Ok() && t.Ok() && u.Ok() && k <= PROCESSES && KeepsBelow(s, t, k) && KeepsBelow(t, u, k)
    ensures KeepsBelow(s, u, k)
  {}

  lemma LoadIsAbove(s: State, call: Call)
    requires Inv(s) && CallOk(s, call) && Execute(s, call).1.Entered?
    ensures Execute(s, call).0.Ok()
    ensures SameOutside(s.mem, Execute(s, call).0.mem, (s.counter + 2) * MB4, (s.counter + 3) * MB4)
  {
    hide StoreAll, EntryPoint, LoadCount, LoadedBytes, Create, FirstSpace, PcbGood, SpaceGood, ReservedClear, DiskGood;
    var name, k := NameOfCommand(call.command.value), s.counter + 1;
    LoadFits(s.disk, name, k);
    LoadIsWritten(s.disk, s.mem, name, k);
  }

  /** Outside the frame of process k and the video page. */
  predicate Elsewhere(a: int, k: nat) {
    0 <= a < MEMORY && !InFrame(a, k + 1) && !InVideoPage(a)
  }

  /** There nothing has changed; in the page of the kernel if it was spared. */
  ghost predicate SameElsewhere(was: seq<Byte>, now: seq<Byte>, k: nat, spared: bool) {
    && |now| == |was| == MEMORY
    && forall a {:trigger now[a]} :: Elsewhere(a, k) && (spared || !InKernelPage(a)) ==> now[a] == was[a]
  }

  /** What the kernel stores at present addresses stays in the frame of the running process, the video page
      and the kernel's own page, and out of the last if the addresses spare it. */
  lemma StoresStayInside(m: seq<Byte>, k: nat, la: nat, data: seq<Byte>, video: bool)
    requires |m| == MEMORY && 1 <= k <= PROCESSES && AllPresent(la, |data|, video)
    ensures SameElsewhere(m, StoreAll(m, Linear(k, la), data), k, Spares(la, |data|))
  {
    hide StoreAll;
    var b := Linear(k, la);
    forall a {:trigger StoreAll(m, b, data)[a]} | Elsewhere(a, k) && (Spares(la, |data|) || !InKernelPage(a))
      ensures StoreAll(m, b, data)[a] == m[a]
    {
      forall i {:trigger b.Place(i)} | 0 <= i < |data| ensures b.Place(i) != a {
        assert Present(la + i, video) && (Spares(la, |data|) ==> !InKernelPage(la + i));
        PhysStaysInside(k, la + i, video);
      }
      StoreAllSpares(m, b, data, a);
    }
  }

  /** A read at any address: no memory changes but the caller's frame, the video page and the kernel's page,
      and not that if no byte is stored there. */
  lemma ReadStaysInside(s: State, fd: int, buf: nat, n: int, device: Answer)
    requires Enabled(s, ReadOp(fd, buf, n, device))
    ensures |Files(s)| == 8 && Read(s, fd, buf, n, device).0.Ok()
    ensures SameElsewhere(s.mem, Read(s, fd, buf, n, device).0.mem, s.counter, Contained(s, ReadOp(fd, buf, n, device)))
  {
    hide StoreAll, ReadBytes, ReadFd, FitsWindow, IsImage, PcbGood, SpaceGood, ReservedClear, AllPresent, Spares;
    CurrentFiles(s);
    if Reaches(s, fd, buf) {
      var data := ReadBytes(s.disk, Files(s)[fd], Unsigned(n), device);
      StoresStayInside(s.mem, s.counter, buf, data, HasVideo(s.tables, s.counter));
    }
  }

  lemma ReadKeepsBelow(s: State, fd: int, buf: nat, n: int, device: Answer)
    requires Enabled(s, ReadOp(fd, buf, n, device)) && Contained(s, ReadOp(fd, buf, n, device))
    ensures |Files(s)| == 8 && Read(s, fd, buf, n, device).0.Ok()
    ensures KeepsBelow(s, Read(s, fd, buf, n, device).0, s.counter - 1)
  {
    hide StoreAll, ReadBytes, ReadFd, FitsWindow, IsImage, PcbGood, SpaceGood, DiskGood, ReservedClear, AllPresent,
      Spares;
    CurrentFiles(s);
    ReadStaysInside(s, fd, buf, n, device);
  }

  lemma GetArgsKeepsBelow(s: State, buf: nat, n: int)
    requires Enabled(s, GetArgsOp(buf, n)) && Contained(s, GetArgsOp(buf, n))
    ensures GetArgs(s, buf, n).0.Ok() && KeepsBelow(s, GetArgs(s, buf, n).0, s.counter - 1)
  {
    hide StoreAll, Padded, FitsWindow, IsImage, PcbGood, SpaceGood, DiskGood, ReservedClear, AllPresent, Spares;
    if buf != 0 && n >= s.argSize {
      assert GetArgs(s, buf, n).0.mem == StoreAll(s.mem, Linear(s.counter, buf), Padded(s.pcbs[s.counter - 1].arg, n));
      assert Spares(buf, n);
      StoresStayInside(s.mem, s.counter, buf, Padded(s.pcbs[s.counter - 1].arg, n), HasVideo(s.tables, s.counter));
    }
  }

  lemma VidmapKeepsBelow(s: State, la: nat)
    requires Enabled(s, VidmapOp(la))
    ensures Vidmap(s, la).0.Ok() && KeepsBelow(s, Vidmap(s, la).0, s.counter - 1)
  {
    hide StoreAll, FitsWindow, IsImage, PcbGood, SpaceGood, DiskGood, ReservedClear, VideoTable;
    if USER_START <= la < USER_END {
      assert Spares(la, 4) && AllPresent(la, 4, true);
      assert Vidmap(s, la).0.mem == StoreAll(s.mem, Linear(s.counter, la), SCREEN_BYTES);
      StoresStayInside(s.mem, s.counter, la, SCREEN_BYTES, true);
    }
  }

  lemma ExecuteKeepsBelow(s: State, call: Call)
    requires Inv(s) && CallOk(s, call)
    ensures Inv(Execute(s, call).0) && KeepsBelow(s, Execute(s, call).0, s.counter)
  {
    ExecuteKeepsInv(s, call);
    if Execute(s, call).1 == Refused {
      RefusedExecuteChangesNothing(s, call);
    } else {
      NewPcb(s, call);
      LoadIsAbove(s, call);
      if s.counter >= 1 {
        assert SpaceGood(s.tables, s.counter);
      }
      hide Execute, Inv, ShellTable;
    }
  }

  /** A program's store reaches its own frame or the video page, never a control block or page table. */
  lemma StoreStaysInside(s: State, la: nat, b: Byte)
    requires Enabled(s, StoreOp(la, b))
    ensures var t := Store(s, la, b);
      && t == s.(mem := t.mem) && |t.mem| == |s.mem|
      && forall a :: 0 <= a < |s.mem| && !InFrame(a, s.counter + 1) && !InVideoPage(a) ==> t.mem[a] == s.mem[a]
  {
    var k := s.counter;
    assert SpaceGood(s.tables, k);
    WalkIsSpace(s.tables, k - 1, k + 1, HasVideo(s.tables, k), la);
    hide HasShape, Walk, Space, DiskGood;
    if Space(k + 1, HasVideo(s.tables, k), la).Mapped? && Space(k + 1, HasVideo(s.tables, k), la).user {
      UserAccess(k + 1, HasVideo(s.tables, k), la);
    }
  }

  lemma StoreKeepsBelow(s: State, la: nat, b: Byte)
    requires Enabled(s, StoreOp(la, b))
    ensures Store(s, la, b).Ok() && KeepsBelow(s, Store(s, la, b), s.counter - 1)
  {
    StoreStaysInside(s, la, b);
    hide Store, Inv;
  }

  lemma OpenKeepsBelow(s: State, name: seq<Byte>)
    requires Inv(s) && 1 <= s.counter
    ensures |Files(s)| == 8 && Open(s, name).0.Ok() && KeepsBelow(s, Open(s, name).0, s.counter - 1)
  {
    hide FitsWindow, IsImage, SpaceGood, ReservedClear, Lookup, Entry, First, Vacant, OpsOf;
    CurrentFiles(s);
  }

  lemma CloseKeepsBelow(s: State, fd: int)
    requires Inv(s) && 1 <= s.counter
    ensures |Files(s)| == 8 && Close(s, fd).0.Ok() && KeepsBelow(s, Close(s, fd).0, s.counter - 1)
  {
    hide FitsWindow, IsImage, SpaceGood, ReservedClear;
    CurrentFiles(s);
  }

  lemma ShownKeepsBelow(s: State, screen: seq<Byte>, k: nat)
    requires s.Ok() && k <= PROCESSES && |screen| == SCREEN_SIZE
    ensures Shown(s, screen).Ok() && KeepsBelow(s, Shown(s, screen), k)
  {
    hide StoreAll, DiskOk;
    ShownOnlyThere(s, screen);
  }

  lemma WriteKeepsBelow(s: State, fd: int, buf: nat, n: int, data: seq<Byte>, devices: Devices)
    requires Enabled(s, WriteOp(fd, buf, n, data, devices)) && Contained(s, WriteOp(fd, buf, n, data, devices))
    ensures |Files(s)| == 8 && Write(s, fd, buf, n, data, devices).0.Ok()
    ensures KeepsBelow(s, Write(s, fd, buf, n, data, devices).0, s.counter - 1)
  {
    hide StoreAll, FitsWindow, IsImage, PcbGood, SpaceGood, ReservedClear, AllPresent, Shown;
    CurrentFiles(s);
    if |devices.screen| == SCREEN_SIZE {
      ShownKeepsBelow(s, devices.screen, s.counter - 1);
    }
  }

  lemma HaltKeepsBelow(s: State, status: Byte)
    requires Enabled(s, HaltOp(status))
    ensures Step(s, HaltOp(status)).Ok() && KeepsBelow(s, Step(s, HaltOp(status)), s.counter - 1)
  {
    hide StoreAll, FitsWindow, IsImage, PcbGood, SpaceGood, ReservedClear, Shown;
    HaltKeepsInv(s, status);
    ShownKeepsBelow(s, ClearedScreen(), s.counter - 1);
  }

  /** A contained step taken while process c is the last one changes nothing of the processes before it. */
  lemma StepKeepsBelow(s: State, op: Op)
    requires Enabled(s, op) && 1 <= s.counter && Contained(s, op)
    ensures Inv(Step(s, op)) && KeepsBelow(s, Step(s, op), s.counter - 1)
  {
    hide StoreAll, FitsWindow, IsImage, PcbGood, SpaceGood, DiskGood, ReservedClear, AllPresent, Spares, KeepsBelow,
      Execute, Halt, Read, Open, Close, GetArgs, Vidmap, Store, Write;
    StepKeepsInv(s, op);
    match op
    case ExecuteOp(call) => ExecuteKeepsBelow(s, call); KeepsLess(s, Execute(s, call).0, s.counter);
    case HaltOp(status) => HaltKeepsBelow(s, status);
    case ReadOp(fd, buf, n, device) => ReadKeepsBelow(s, fd, buf, n, device);
    case OpenOp(name) => OpenKeepsBelow(s, name);
    case CloseOp(fd) => CloseKeepsBelow(s, fd);
    case GetArgsOp(buf, n) => GetArgsKeepsBelow(s, buf, n);
    case VidmapOp(a) => VidmapKeepsBelow(s, a);
    case StoreOp(la, b) => StoreKeepsBelow(s, la, b);
    case WriteOp(fd, buf, n, data, devices) => WriteKeepsBelow(s, fd, buf, n, data, devices);
  }

  lemma KeepsLess(s: State, t: State, k: nat)
    requires s.Ok() && t.Ok() && 1 <= k <= PROCESSES && KeepsBelow(s, t, k)
    ensures KeepsBelow(s, t, k - 1)
  {
    assert t.pcbs[..k - 1] == t.pcbs[..k][..k - 1] && s.pcbs[..k - 1] == s.pcbs[..k][..k - 1];
    assert t.tables.dirs[..k - 1] == t.tables.dirs[..k][..k - 1];
    assert s.tables.dirs[..k - 1] == s.tables.dirs[..k][..k - 1];
  }

  // ---- Runs of a child ----

  /** What of a control block stays the same as long as its process lives. */
  predicate SameHeader(p: Pcb, q: Pcb) {
    p.pid == q.pid && p.parentPid == q.parentPid && p.parentEsp == q.parentEsp && p.parentEbp == q.parentEbp
    && p.arg == q.arg
  }

  /** The run never ends process k + 1: after every step at least k + 1 processes are left. */
  ghost predicate StaysAbove(s: State, ops: seq<Op>, k: nat)
    decreases |ops|
  {
    s.counter > k && (ops == [] || (Enabled(s, ops[0]) && StaysAbove(Step(s, ops[0]), ops[1..], k)))
  }

  lemma ExecuteKeepsHeader(s: State, call: Call, k: nat)
    requires Inv(s) && CallOk(s, call) && k < s.counter
    ensures |Execute(s, call).0.pcbs| == PROCESSES && SameHeader(s.pcbs[k], Execute(s, call).0.pcbs[k])
  {
    ExecuteKeepsInv(s, call);
    if Execute(s, call).1 == Refused {
      RefusedExecuteChangesNothing(s, call);
    } else {
      NewPcb(s, call);
    }
    hide Execute, PcbGood, DiskGood, SpaceGood, ReservedClear;
  }

  lemma StepKeepsHeader(s: State, op: Op, k: nat)
    requires Enabled(s, op) && k < s.counter
    ensures |Step(s, op).pcbs| == PROCESSES && SameHeader(s.pcbs[k], Step(s, op).pcbs[k])
  {
    hide PcbGood, DiskGood, SpaceGood, ReservedClear, Execute, ReadFd, MapVideo, Walk, Entry, Lookup;
    match op
    case ExecuteOp(call) => ExecuteKeepsHeader(s, call, k);
    case HaltOp(status) =>
    case ReadOp(fd, buf, n, device) => CurrentFiles(s);
    case OpenOp(name) => OpenKeepsHeader(s, name, k);
    case CloseOp(fd) => CurrentFiles(s);
    case GetArgsOp(buf, n) =>
    case VidmapOp(a) =>
    case StoreOp(la, b) =>
    case WriteOp(fd, buf, n, data, devices) => CurrentFiles(s);
  }

  lemma OpenKeepsHeader(s: State, name: seq<Byte>, k: nat)
    requires Inv(s) && k < s.counter
    ensures |Files(s)| == 8 && |Open(s, name).0.pcbs| == PROCESSES
    ensures SameHeader(s.pcbs[k], Open(s, name).0.pcbs[k])
  {
    CurrentFiles(s);
    hide Inv, Entry, Lookup;
  }

  lemma StepKeepsBelowChild(s: State, op: Op, k: nat)
    requires Enabled(s, op) && k < s.counter && Contained(s, op)
    ensures Inv(Step(s, op)) && KeepsBelow(s, Step(s, op), k)
  {
    StepKeepsBelow(s, op);
    KeepsLower(s, Step(s, op), s.counter - 1, k);
  }

  lemma KeepsLower(s: State, t: State, n: nat, k: nat)
    requires s.Ok() && t.Ok() && k <= n <= PROCESSES && KeepsBelow(s, t, n)
    ensures KeepsBelow(s, t, k)
    decreases n
  {
    if k < n {
      KeepsLess(s, t, n);
      KeepsLower(s, t, n - 1, k);
    }
  }

  lemma {:induction false} RunKeepsBelow(s: State, ops: seq<Op>, k: nat)
    requires Inv(s) && StaysAbove(s, ops, k) && RunEnabled(s, ops) && RunContained(s, ops)
    ensures Inv(Run(s, ops)) && Run(s, ops).counter > k
    ensures KeepsBelow(s, Run(s, ops), k) && SameHeader(s.pcbs[k], Run(s, ops).pcbs[k])
    decreases |ops|
  {
    if ops != [] {
      StepKeepsBelowChild(s, ops[0], k);
      StepKeepsHeader(s, ops[0], k);
      var t := Step(s, ops[0]);
      RunKeepsBelow(t, ops[1..], k);
      hide Step, Enabled, KeepsBelow, Contained;
      KeepsBelowTransitive(s, t, Run(t, ops[1..]), k);
    }
  }
}
