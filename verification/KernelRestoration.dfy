/** What a process finds again when its child has ended, and what it does not. */
module KernelRestoration {
  import opened Bytes
  import opened Buffers
  import opened Paging
  import opened FileSystems
  import opened KernelSpec
  import opened KernelRuns
  import opened KernelIsolation
  import opened KernelContainment

  /** The address space of process j is what it was. */
  lemma SameSpace(s: State, t: State, k: nat, j: nat, la: nat)
    requires Inv(s) && Inv(t) && 1 <= j <= k <= s.counter && k <= t.counter && KeepsBelow(s, t, k) && la < WRAP
    ensures Walk(t.tables, j - 1, la) == Walk(s.tables, j - 1, la)
  {
    assert SpaceGood(s.tables, j) && SpaceGood(t.tables, j);
    assert t.tables.dirs[..k][j - 1] == s.tables.dirs[..k][j - 1];
    WalkIsSpace(s.tables, j - 1, j + 1, HasVideo(s.tables, j), la);
    WalkIsSpace(t.tables, j - 1, j + 1, HasVideo(t.tables, j), la);
  }

  /** Stack discipline. Process k executes a child; the child and all its descendants do what they like.
      The kernel's page, in which the saved stack and the control blocks are, and the frames of all that wait
      are at the child's halt what they were, whatever the memory holds, if and only if no step had the
      kernel store something in that page for its program. Process k then continues with the stack it left,
      and with its own and all its ancestors' control blocks, page directories, address spaces and memory
      exactly as they were. */
  lemma ParentIsRestored(s: State, call: Call, child: State, ops: seq<Op>, last: State, status: Byte, la: nat, j: nat)
    requires Inv(s) && CallOk(s, call) && 1 <= s.counter
    requires Execute(s, call).1.Entered? && child == Execute(s, call).0
    requires RunEnabled(child, ops) && StaysAbove(child, ops, s.counter)
    requires last == Run(child, ops) && last.counter == s.counter + 1
    requires la < WRAP && 1 <= j <= s.counter
    ensures child.Ok() && ((forall m :: RunSpares(child, ops, s.counter, m)) <==> RunContained(child, ops))
    ensures RunContained(child, ops) ==>
      && Inv(last) && Halt(last, status).1 == Back(call.esp, call.ebp, status)
      && var t := Halt(last, status).0;
         && Inv(t) && t.counter == s.counter && t.cr3 == s.cr3 && t.esp0 == s.esp0
         && KeepsBelow(s, t, s.counter) && t.pcbs[s.counter - 1] == s.pcbs[s.counter - 1]
         && Walk(t.tables, j - 1, la) == Walk(s.tables, j - 1, la)
  {
    var k := s.counter;
    ExecuteKeepsBelow(s, call);
    NewPcb(s, call);
    RunSparesExactly(child, ops, k);
    if RunContained(child, ops) {
      RunKeepsBelow(child, ops, k);
      HaltKeepsInv(last, status);
      var t := Halt(last, status).0;
      hide Execute, Run, RunEnabled, StaysAbove, Halt, CallOk, RunContained;
      RestoredState(s, child, last, t, call, k);
      SameSpace(s, t, k, j, la);
    }
  }

  lemma RestoredState(s: State, child: State, c: State, t: State, call: Call, k: nat)
    requires Inv(s) && Inv(child) && Inv(c) && Inv(t) && k == s.counter && 1 <= k < PROCESSES
    requires KeepsBelow(s, child, k) && KeepsBelow(child, c, k)
    requires SameHeader(child.pcbs[k], c.pcbs[k])
    requires child.pcbs[k].parentEsp == call.esp && child.pcbs[k].parentEbp == call.ebp
    requires c.counter == k + 1 && t.counter == k && t.pcbs == c.pcbs && t.tables == c.tables && t.mem == c.mem
    requires t.disk == c.disk && t.shellEntry == c.shellEntry
    ensures t.cr3 == s.cr3 && t.esp0 == s.esp0 && KeepsBelow(s, t, k) && t.pcbs[k - 1] == s.pcbs[k - 1]
    ensures c.pcbs[k].parentEsp == call.esp && c.pcbs[k].parentEbp == call.ebp
  {
    KeepsBelowTransitive(s, child, c, k);
    assert t.pcbs[..k][k - 1] == s.pcbs[..k][k - 1];
  }

  // ---- What is not restored ----

  /** The argument text of a command that execute takes apart in this step, if it gets so far. */
  ghost function ParsedBy(s: State, op: Op): seq<seq<Byte>>
    requires Enabled(s, op)
  {
    if op.ExecuteOp? && s.counter < PROCESSES && op.call.command.Some? then [ArgsOfCommand(op.call.command.value)]
    else []
  }

  /** Those of a run, in order. */
  ghost function Parsed(s: State, ops: seq<Op>): seq<seq<Byte>>
    requires RunEnabled(s, ops)
    decreases |ops|
  {
    if ops == [] then [] else ParsedBy(s, ops[0]) + Parsed(Step(s, ops[0]), ops[1..])
  }

  function LastLength(texts: seq<seq<Byte>>, otherwise: nat): nat {
    if texts == [] then otherwise else |texts[|texts| - 1]|
  }

  lemma StepSetsArgSize(s: State, op: Op)
    requires Enabled(s, op)
    ensures Step(s, op).argSize == LastLength(ParsedBy(s, op), s.argSize)
  {
    hide Inv, EntryPoint, LoadCount, LoadedBytes, StoreAll, Create, FirstSpace, Walk, ReadFd, ReadBytes, DiskOk, Lookup,
      Entry;
    if !op.ExecuteOp? {
      StepCurrent(s, op);
    }
  }

  lemma StepCurrent(s: State, op: Op)
    requires Enabled(s, op) && !op.ExecuteOp?
    ensures Step(s, op).argSize == s.argSize
  {
    hide PcbGood, SpaceGood, DiskGood, ReservedClear, StoreAll, Walk, ReadFd, ReadBytes, DiskOk, Lookup, Entry,
      MapVideo, Padded, AllPresent;
  }

  /** The global argument size is that of the command taken apart last, by whichever process. */
  lemma {:induction false} ArgSizeIsLastParsed(s: State, ops: seq<Op>)
    requires RunEnabled(s, ops)
    ensures Run(s, ops).argSize == LastLength(Parsed(s, ops), s.argSize)
    decreases |ops|
  {
    if ops != [] {
      StepSetsArgSize(s, ops[0]);
      hide Enabled, Step, ParsedBy;
      ArgSizeIsLastParsed(Step(s, ops[0]), ops[1..]);
    }
  }

  /** After its child has ended, a process is served by getargs as before exactly when the count passes the
      test with the argument length of the command taken apart last in the child's lifetime as it passed the
      test before. The length before was that of its own text if no other command came in between. */
  lemma GetArgsAfterChild(s: State, call: Call, child: State, ops: seq<Op>, last: State, status: Byte, buf: nat, n: int)
    requires Inv(s) && CallOk(s, call) && 1 <= s.counter && buf != 0
    requires Execute(s, call).1.Entered? && child == Execute(s, call).0
    requires RunEnabled(child, ops) && StaysAbove(child, ops, s.counter) && RunContained(child, ops)
    requires last == Run(child, ops) && last.counter == s.counter + 1
    ensures Inv(last)
    ensures var t := Halt(last, status).0;
      var length := LastLength(Parsed(child, ops), |ArgsOfCommand(call.command.value)|);
      && Inv(t) && t.counter == s.counter && t.argSize == length
      && (GetArgs(t, buf, n).1 == GetArgs(s, buf, n).1 <==> (n < length <==> n < s.argSize))
  {
    ParentIsRestored(s, call, child, ops, last, status, 0, 1);
    ArgSizeIsLastParsed(child, ops);
    ChildArgSize(s, call);
    hide Inv, Run, RunEnabled, StaysAbove, Execute, RunContained, Parsed, StoreAll, Walk, KeepsBelow;
  }

  lemma ChildArgSize(s: State, call: Call)
    requires Inv(s) && CallOk(s, call) && Execute(s, call).1.Entered?
    ensures Execute(s, call).0.argSize == |ArgsOfCommand(call.command.value)|
  {
    hide PcbGood, SpaceGood, DiskGood, ReservedClear, EntryPoint, LoadCount, LoadedBytes, StoreAll, Create, FirstSpace;
  }
}
