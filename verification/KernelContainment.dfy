/** When the kernel's stores for programs leave alone what belongs to others: exact conditions for steps and
    runs, stated on the memory only. */
module KernelContainment {
  import opened Bytes
  import opened Buffers
  import opened Paging
  import opened FileSystems
  import opened KernelSpec
  import opened KernelRuns
  import opened KernelIsolation

  // ---- Steps on other memories ----

  lemma CurrentFilesOf(s: State, op: Op)
    requires Enabled(s, op)
    ensures 1 <= s.counter ==> |Files(s)| == 8
  {
    if 1 <= s.counter {
      CurrentFiles(s);
    }
  }

  /** Whether a step can be taken, and is contained, does not depend on the memory of programs. */
  lemma MemIsNoCondition(s: State, op: Op, m: seq<Byte>)
    requires Enabled(s, op) && |m| == MEMORY
    ensures Enabled(s.(mem := m), op) && (Contained(s.(mem := m), op) <==> Contained(s, op))
  {
    hide PcbGood, SpaceGood, DiskGood, ReservedClear, AllPresent, Spares, ReadBytes;
    assert Inv(s.(mem := m));
    CurrentFilesOf(s, op);
  }

  /** Nor does what it does, apart from that memory. */
  lemma MemIsApart(s: State, op: Op, m: seq<Byte>)
    requires Enabled(s, op) && |m| == MEMORY
    ensures Enabled(s.(mem := m), op)
    ensures var t := Step(s.(mem := m), op); |t.mem| == MEMORY && t == Step(s, op).(mem := t.mem)
  {
    hide PcbGood, SpaceGood, DiskGood, ReservedClear, AllPresent, Spares, ReadBytes, ReadFd, StoreAll, Execute, Open,
      MapVideo, Walk, Padded, FitsWindow, IsImage, Shown, Overrun;
    MemIsNoCondition(s, op, m);
    CurrentFilesOf(s, op);
    match op
    case ExecuteOp(call) => ExecuteMemIsApart(s, call, m);
    case OpenOp(name) => OpenMemIsApart(s, name, m);
    case HaltOp(status) => ShownMemIsApart(s, ClearedScreen(), m);
    case WriteOp(fd, buf, n, data, devices) =>
      OverrunMemIsApart(s, data, devices.lineBuffer, m);
      ShownMemIsApart(Overrun(s, data, devices.lineBuffer), devices.screen,
                      Overrun(s.(mem := m), data, devices.lineBuffer).mem);
    case _ =>
  }

  lemma ExecuteMemIsApart(s: State, call: Call, m: seq<Byte>)
    requires s.Ok() && CallOk(s, call) && |m| == MEMORY
    ensures CallOk(s.(mem := m), call) && s.(mem := m).Ok()
    ensures var t := Execute(s.(mem := m), call).0; |t.mem| == MEMORY && t == Execute(s, call).0.(mem := t.mem)
  {
    hide StoreAll, EntryPoint, Create, Lookup, LoadCount, LoadedBytes, FirstSpace, NameOfCommand, ArgsOfCommand,
      FitsWindow, IsImage, Parses;
  }

  lemma OpenMemIsApart(s: State, name: seq<Byte>, m: seq<Byte>)
    requires s.Ok() && 1 <= s.counter && |Files(s)| == 8 && |m| == MEMORY
    ensures |Files(s.(mem := m))| == 8 && Open(s.(mem := m), name).0 == Open(s, name).0.(mem := m)
  {
    hide DiskOk, Lookup, Entry, First, Vacant, OpsOf;
  }

  lemma ShownMemIsApart(s: State, screen: seq<Byte>, m: seq<Byte>)
    ensures var t := Shown(s.(mem := m), screen); |t.mem| == |m| && t == Shown(s, screen).(mem := t.mem)
  {
    hide StoreAll;
  }

  lemma OverrunMemIsApart(s: State, data: seq<Byte>, lineBuffer: nat, m: seq<Byte>)
    ensures var t := Overrun(s.(mem := m), data, lineBuffer);
      |t.mem| == |m| && t == Overrun(s, data, lineBuffer).(mem := t.mem)
  {
    hide StoreAll;
  }

  /** The memory after the step, started with `m` in memory. */
  ghost function StepMem(s: State, op: Op, m: seq<Byte>): (after: seq<Byte>)
    requires Enabled(s, op) && |m| == MEMORY
    ensures |after| == MEMORY
  {
    MemIsApart(s, op, m);
    Step(s.(mem := m), op).mem
  }

  // ---- One step ----

  /** With `m` in memory, the step changes nothing in the kernel's page and in the frames of the processes
      before the last one. */
  ghost predicate SparesOthers(s: State, op: Op, m: seq<Byte>)
    requires Enabled(s, op)
  {
    |m| == MEMORY ==> SameBetween(m, StepMem(s, op, m), MB4, (s.counter + 1) * MB4)
  }

  ghost predicate SameBetween(was: seq<Byte>, now: seq<Byte>, lo: int, hi: int) {
    |now| == |was| && forall a {:trigger now[a]} :: lo <= a < hi && 0 <= a < |was| ==> now[a] == was[a]
  }

  /** A store at present addresses one of which lies in the page of the kernel leaves a certain byte there,
      whatever was there before. */
  lemma KernelPageIsHit(k: nat, la: nat, data: seq<Byte>, video: bool) returns (a: nat, b: Byte)
    requires 1 <= k <= PROCESSES && AllPresent(la, |data|, video) && !Spares(la, |data|)
    ensures InKernelPage(a)
    ensures forall m {:trigger StoreAll(m, Linear(k, la), data)} :: |m| == MEMORY ==>
      StoreAll(m, Linear(k, la), data)[a] == b
  {
    a :| la <= a < la + |data| && InKernelPage(a);
    var dest, i := Linear(k, la), a - la;
    b := data[i];
    forall j {:trigger dest.Place(j)} | i < j < |data| ensures dest.Place(j) != a {
      assert Present(la + j, video);
      PhysStaysInside(k, la + j, video);
    }
    assert dest.Place(i) == a;
    forall m | |m| == MEMORY ensures StoreAll(m, dest, data)[a] == b {
      StoreAllStores(m, dest, data, i);
    }
  }

  /** So does a write that overruns the line buffer. */
  lemma BehindBufferIsHit(s: State, data: seq<Byte>, devices: Devices)
    requires LINE_BUFFER_SIZE < |data| && devices.lineBuffer + |data| <= 2 * MB4
    requires MB4 <= devices.lineBuffer && |devices.screen| == SCREEN_SIZE && |s.mem| == MEMORY
    ensures Shown(Overrun(s, data, devices.lineBuffer), devices.screen).mem[devices.lineBuffer + LINE_BUFFER_SIZE]
         == data[LINE_BUFFER_SIZE]
  {
    hide StoreAll;
    OverrunOnlyThere(s, data, devices.lineBuffer);
    ShownOnlyThere(Overrun(s, data, devices.lineBuffer), devices.screen);
  }

  /** A step that is not contained leaves a certain byte in the kernel's page, whatever was there. */
  lemma UncontainedStores(s: State, op: Op) returns (a: nat, b: Byte)
    requires Enabled(s, op) && 1 <= s.counter && !Contained(s, op)
    ensures InKernelPage(a) && forall m {:trigger StepMem(s, op, m)} :: |m| == MEMORY ==> StepMem(s, op, m)[a] == b
  {
    hide PcbGood, SpaceGood, DiskGood, ReservedClear, AllPresent, Spares, ReadBytes, StoreAll, ReadFd, Padded, Shown,
      Overrun;
    CurrentFiles(s);
    var video := HasVideo(s.tables, s.counter);
    match op
    case ReadOp(fd, buf, n, device) =>
      a, b := KernelPageIsHit(s.counter, buf, ReadBytes(s.disk, Files(s)[fd], Unsigned(n), device), video);
    case GetArgsOp(buf, n) =>
      a, b := KernelPageIsHit(s.counter, buf, Padded(s.pcbs[s.counter - 1].arg, n), video);
    case WriteOp(fd, buf, n, data, devices) =>
      a, b := devices.lineBuffer + LINE_BUFFER_SIZE, data[LINE_BUFFER_SIZE];
      forall m {:trigger StepMem(s, op, m)} | |m| == MEMORY ensures StepMem(s, op, m)[a] == b {
        MemIsNoCondition(s, op, m);
        BehindBufferIsHit(s.(mem := m), data, devices);
      }
  }

  /** Whatever the memory holds, a step leaves the page of the kernel and the frames of the processes before
      the last one as they are: if and only if it is contained. */
  lemma SparesOthersExactly(s: State, op: Op)
    requires Enabled(s, op) && 1 <= s.counter
    ensures (forall m :: SparesOthers(s, op, m)) <==> Contained(s, op)
  {
    if Contained(s, op) {
      forall m | |m| == MEMORY ensures SparesOthers(s, op, m) {
        ContainedSpares(s, op, m);
      }
    } else {
      var a, b := UncontainedStores(s, op);
      var m := s.mem[a := Another(b)];
      assert StepMem(s, op, m)[a] != m[a];
      assert !SparesOthers(s, op, m);
    }
  }

  function Another(b: Byte): Byte {
    if b == 0 then 1 else 0
  }

  lemma ContainedSpares(s: State, op: Op, m: seq<Byte>)
    requires Enabled(s, op) && 1 <= s.counter && Contained(s, op) && |m| == MEMORY
    ensures SparesOthers(s, op, m)
  {
    hide Enabled, Contained, Step, Inv;
    MemIsNoCondition(s, op, m);
    StepKeepsBelow(s.(mem := m), op);
  }

  /** Steps that are not contained are there in every state with a waiting parent: the terminal's next
      character, read to the address of the control block of a process that waits for a child. */
  lemma StdinReadHits(s: State, j: nat, b: Byte)
    requires Inv(s) && 1 <= j < s.counter && b != s.mem[PcbAddress(j)]
    ensures var op := ReadOp(0, PcbAddress(j), 1, Answer(1, [b]));
      && Enabled(s, op) && !Contained(s, op)
      && Step(s, op).Ok() && Step(s, op).mem[PcbAddress(j)] == b && !KeepsBelow(s, Step(s, op), j)
  {
    hide PcbGood, SpaceGood, DiskGood, ReservedClear, FitsWindow, IsImage;
    CurrentFiles(s);
    assert InKernelPage(PcbAddress(j));
  }

  /** And in every state with a process: a write of 2000 bytes to stdout, from the program's own window. The
      bytes behind the line buffer become those of the program. */
  lemma LongWriteHits(s: State, lineBuffer: nat, b: Byte)
    requires Inv(s) && 1 <= s.counter && MB4 <= lineBuffer <= 2 * MB4 - 2000
    requires b != s.mem[lineBuffer + LINE_BUFFER_SIZE]
    ensures var op := LongWrite(lineBuffer, b);
      && Enabled(s, op) && !Contained(s, op)
      && Step(s, op).Ok() && Step(s, op).mem[lineBuffer + LINE_BUFFER_SIZE] == b && !KeepsBelow(s, Step(s, op), 0)
  {
    hide PcbGood, SpaceGood, DiskGood, ReservedClear, FitsWindow, IsImage, StoreAll, Shown, Overrun;
    CurrentFiles(s);
    var data, devices := LongWrite(lineBuffer, b).data, LongWrite(lineBuffer, b).devices;
    BehindBufferIsHit(s, data, devices);
    LongWriteIsOk(s, data, devices);
  }

  lemma LongWriteIsOk(s: State, data: seq<Byte>, devices: Devices)
    requires s.Ok()
    ensures Shown(Overrun(s, data, devices.lineBuffer), devices.screen).Ok()
  {
    hide StoreAll, DiskOk;
  }

  function LongWrite(lineBuffer: nat, b: Byte): Op {
    WriteOp(1, USER_START, 2000, seq<Byte>(2000, _ => b), Devices(lineBuffer, 0, ClearedScreen(), 0))
  }

  // ---- Runs ----

  /** The same of runs. */
  lemma {:induction false} RunMemIsApart(s: State, ops: seq<Op>, m: seq<Byte>)
    requires s.Ok() && RunEnabled(s, ops) && |m| == MEMORY
    ensures RunEnabled(s.(mem := m), ops)
    ensures RunContained(s.(mem := m), ops) <==> RunContained(s, ops)
    ensures var t := Run(s.(mem := m), ops); |t.mem| == MEMORY && t == Run(s, ops).(mem := t.mem)
    decreases |ops|
  {
    if ops != [] {
      MemIsNoCondition(s, ops[0], m);
      MemIsApart(s, ops[0], m);
      MemIsApart(s, ops[0], s.mem);
      StepIsOk(s, ops[0]);
      hide Enabled, Step, Contained, DiskOk;
      RunMemIsApart(Step(s, ops[0]), ops[1..], StepMem(s, ops[0], m));
    }
  }

  lemma StepIsOk(s: State, op: Op)
    requires Enabled(s, op)
    ensures Step(s, op).Ok()
  {
    hide PcbGood, SpaceGood, ReservedClear, AllPresent, Spares, ReadBytes, ReadFd, StoreAll, EntryPoint, Create,
      FitsWindow, IsImage, MapVideo, Walk, Lookup, Entry, LoadCount, LoadedBytes, Padded, FirstSpace, NameOfCommand,
      ArgsOfCommand;
    CurrentFilesOf(s, op);
  }

  lemma {:induction false} MemKeepsAbove(s: State, ops: seq<Op>, m: seq<Byte>, k: nat)
    requires StaysAbove(s, ops, k) && RunEnabled(s, ops) && |m| == MEMORY
    ensures StaysAbove(s.(mem := m), ops, k)
    decreases |ops|
  {
    if ops != [] {
      MemIsApart(s, ops[0], m);
      hide Enabled, Step;
      MemKeepsAbove(Step(s, ops[0]), ops[1..], StepMem(s, ops[0], m), k);
    }
  }

  /** The memory after the run, started with `m` in memory. */
  ghost function RunMem(s: State, ops: seq<Op>, m: seq<Byte>): (after: seq<Byte>)
    requires s.Ok() && RunEnabled(s, ops) && |m| == MEMORY
    ensures |after| == MEMORY
  {
    RunMemIsApart(s, ops, m);
    Run(s.(mem := m), ops).mem
  }

  lemma RunMemStep(s: State, ops: seq<Op>, m: seq<Byte>)
    requires s.Ok() && RunEnabled(s, ops) && |m| == MEMORY && ops != []
    ensures Step(s, ops[0]).Ok() && RunMem(s, ops, m) == RunMem(Step(s, ops[0]), ops[1..], StepMem(s, ops[0], m))
  {
    hide Enabled, Step, DiskOk;
    StepIsOk(s, ops[0]);
    MemIsApart(s, ops[0], m);
  }

  /** With `m` in memory, the run changes nothing in the kernel's page and in the frames of processes 1 to k. */
  ghost predicate RunSpares(s: State, ops: seq<Op>, k: nat, m: seq<Byte>)
    requires s.Ok() && RunEnabled(s, ops)
  {
    |m| == MEMORY ==> SameBetween(m, RunMem(s, ops, m), MB4, (k + 2) * MB4)
  }

  /** A run that is not contained changes a byte of the kernel's page whenever that held a certain value. */
  lemma {:induction false} UncontainedRun(s: State, ops: seq<Op>, k: nat) returns (a: nat, v: Byte)
    requires Inv(s) && s.Ok() && StaysAbove(s, ops, k) && RunEnabled(s, ops) && !RunContained(s, ops)
    ensures InKernelPage(a)
    ensures forall m {:trigger RunMem(s, ops, m)} :: |m| == MEMORY && m[a] == v ==> RunMem(s, ops, m)[a] != v
    decreases |ops|
  {
    var op, t := ops[0], Step(s, ops[0]);
    StepKeepsInv(s, op);
    StepIsOk(s, op);
    assert ops[1..] == [] || Enabled(t, ops[1..][0]);
    if Contained(s, op) {
      a, v := UncontainedRun(t, ops[1..], k);
      forall m {:trigger RunMem(s, ops, m)} | |m| == MEMORY && m[a] == v ensures RunMem(s, ops, m)[a] != v {
        RunMemStep(s, ops, m);
        ContainedSpares(s, op, m);
        assert StepMem(s, op, m)[a] == m[a];
      }
    } else {
      var b;
      a, b := UncontainedStores(s, op);
      v := Another(b);
      forall m {:trigger RunMem(s, ops, m)} | |m| == MEMORY && m[a] == v ensures RunMem(s, ops, m)[a] != v {
        RunMemStep(s, ops, m);
        assert StepMem(s, op, m)[a] == b;
        assert ops[1..] == [];
      }
    }
    hide Inv, Enabled, Contained, Step, DiskOk, RunContained;
  }

  /** Whatever the memory holds at its start, a run in which processes 1 to k wait leaves the page of the
      kernel and their frames as they are: if and only if every step of it is contained. */
  lemma RunSparesExactly(s: State, ops: seq<Op>, k: nat)
    requires Inv(s) && s.Ok() && StaysAbove(s, ops, k) && RunEnabled(s, ops)
    ensures (forall m :: RunSpares(s, ops, k, m)) <==> RunContained(s, ops)
  {
    if RunContained(s, ops) {
      forall m | |m| == MEMORY ensures RunSpares(s, ops, k, m) {
        ContainedRunSpares(s, ops, k, m);
      }
    } else {
      var a, v := UncontainedRun(s, ops, k);
      var m := s.mem[a := v];
      assert RunMem(s, ops, m)[a] != m[a];
      assert !RunSpares(s, ops, k, m);
    }
  }

  lemma ContainedRunSpares(s: State, ops: seq<Op>, k: nat, m: seq<Byte>)
    requires Inv(s) && s.Ok() && StaysAbove(s, ops, k) && RunEnabled(s, ops) && RunContained(s, ops) && |m| == MEMORY
    ensures RunSpares(s, ops, k, m)
  {
    hide Enabled, Step, Contained, PcbGood, SpaceGood, DiskGood, ReservedClear, DiskOk, Run, StaysAbove;
    RunMemIsApart(s, ops, m);
    MemKeepsAbove(s, ops, m, k);
    RunKeepsBelow(s.(mem := m), ops, k);
  }
}
