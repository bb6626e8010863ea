/** What one descriptor delivers in a whole run, whatever else the machine does in between. */
module KernelDelivery {
  import opened Bytes
  import opened Buffers
  import opened Paging
  import opened FileSystems
  import opened KernelSpec
  import opened KernelRuns
  import opened KernelIsolation
  import opened KernelFiles

  /** Descriptor `fd` of process k. */
  function FdOf(s: State, k: nat, fd: nat): Fd
    requires 1 <= k <= |s.pcbs| && fd < |s.pcbs[k - 1].files|
  {
    s.pcbs[k - 1].files[fd]
  }

  /** Process k is there and has `fd` open on a regular file. */
  ghost predicate HasOpen(s: State, k: nat, fd: nat) {
    && Inv(s) && s.Ok() && 1 <= k <= s.counter && 2 <= fd < 8 && |s.pcbs[k - 1].files| == 8
    && IsOpenFile(s.disk, FdOf(s, k, fd))
  }

  /** The step reads through this descriptor. */
  predicate ReadsFd(s: State, op: Op, k: nat, fd: nat) {
    op.ReadOp? && s.counter == k && op.fd == fd && op.buf != 0
  }

  ghost function StepDelivers(s: State, op: Op, k: nat, fd: nat): seq<Byte>
    requires Enabled(s, op)
  {
    if !ReadsFd(s, op, k, fd) || fd > 7 then [] else
      CurrentFiles(s);
      ReadBytes(s.disk, Files(s)[fd], Unsigned(op.n), op.device)
  }

  /** The process does not close the descriptor, and no read on it fails. */
  ghost predicate LeavesOpen(s: State, op: Op, k: nat, fd: nat)
    requires Enabled(s, op)
  {
    if ReadsFd(s, op, k, fd) && fd <= 7 then
      CurrentFiles(s);
      CanRead(s.disk, Files(s)[fd], Unsigned(op.n))
    else s.counter == k && op.CloseOp? ==> op.fd != fd
  }

  /** From `f` to `g` exactly the bytes of the file between their positions have been delivered. */
  ghost predicate Advanced(img: seq<Byte>, f: Fd, g: Fd, bytes: seq<Byte>) {
    && IsOpenFile(img, f) && IsOpenFile(img, g) && g == f.(position := f.position + |bytes|)
    && g.position <= |Contents(img, f.inode)| && bytes == Contents(img, f.inode)[f.position..g.position]
  }

  lemma AdvancedMore(img: seq<Byte>, f: Fd, g: Fd, h: Fd, a: seq<Byte>, b: seq<Byte>)
    requires Advanced(img, f, g, a) && Advanced(img, g, h, b)
    ensures Advanced(img, f, h, a + b)
  {
    hide IsOpenFile, Contents;
    Consecutive(Contents(img, f.inode), f.position, g.position, h.position);
  }

  lemma NotAdvanced(img: seq<Byte>, f: Fd)
    requires IsOpenFile(img, f)
    ensures Advanced(img, f, f, [])
  {
    hide FileLength, WellFormedInode, FindFrom;
    SliceOfContents(img, f.inode, f.position, 0);
  }

  lemma ReadFdAdvances(img: seq<Byte>, f: Fd, n: nat, device: Answer)
    requires IsOpenFile(img, f)
    ensures Advanced(img, f, ReadFd(img, f, n, device).0, ReadBytes(img, f, n, device)) <==> CanRead(img, f, n)
  {
    hide CanRead, FileLength, Contents, Slice, FindFrom, NamedReadCount, NamedBytes, WellFormedInode, BlockNo;
    if CanRead(img, f, n) {
      ReadAdvances(img, f, n);
      SliceOfContents(img, f.inode, f.position, 0);
    } else {
      FailedReadMovesBack(img, f, n, device);
      OpenFileLength(img, f);
    }
  }

  /** A read on this descriptor. */
  lemma OwnRead(s: State, op: Op, k: nat, fd: nat)
    requires HasOpen(s, k, fd) && Enabled(s, op) && ReadsFd(s, op, k, fd)
    ensures |Step(s, op).pcbs| == PROCESSES && |Step(s, op).pcbs[k - 1].files| == 8
    ensures Advanced(s.disk, FdOf(s, k, fd), FdOf(Step(s, op), k, fd), StepDelivers(s, op, k, fd))
       <==> LeavesOpen(s, op, k, fd)
  {
    hide CanRead, Contents, FindFrom, StoreAll, ReadFd, ReadBytes, WellFormedInode, FileLength, PcbGood, SpaceGood,
      DiskGood, ReservedClear, AllPresent, Spares, Advanced;
    ReadFdAdvances(s.disk, FdOf(s, k, fd), Unsigned(op.n), op.device);
    var g := ReadFd(s.disk, FdOf(s, k, fd), Unsigned(op.n), op.device).0;
    assert Step(s, op).pcbs[k - 1].files == s.pcbs[k - 1].files[fd := g];
  }

  /** Closing this descriptor. */
  lemma OwnClose(s: State, op: Op, k: nat, fd: nat)
    requires HasOpen(s, k, fd) && Enabled(s, op) && s.counter == k && op == CloseOp(fd)
    ensures |Step(s, op).pcbs| == PROCESSES && |Step(s, op).pcbs[k - 1].files| == 8
    ensures !Advanced(s.disk, FdOf(s, k, fd), FdOf(Step(s, op), k, fd), [])
  {
    hide Contents, FindFrom, WellFormedInode, FileLength, PcbGood, SpaceGood, DiskGood, ReservedClear;
  }

  /** Any other step of the same process. */
  lemma OtherStep(s: State, op: Op, k: nat, fd: nat)
    requires HasOpen(s, k, fd) && Enabled(s, op) && s.counter == k && LeavesOpen(s, op, k, fd) && !ReadsFd(s, op, k, fd)
    requires Contained(s, op)
    ensures |Step(s, op).pcbs| == PROCESSES && |Step(s, op).pcbs[k - 1].files| == 8
    ensures FdOf(Step(s, op), k, fd) == FdOf(s, k, fd)
  {
    hide Contents, FindFrom, StoreAll, ReadFd, ReadBytes, WellFormedInode, FileLength, PcbGood, SpaceGood, Entry,
      DiskGood, ReservedClear, AllPresent, Spares, Padded, MapVideo, Walk, EntryPoint, LoadCount, Execute;
    match op
    case ExecuteOp(call) =>
      ExecuteKeepsBelow(s, call);
      assert Step(s, op).pcbs[..k][k - 1] == s.pcbs[..k][k - 1];
    case HaltOp(status) => HaltKeepsInv(s, status);
    case OpenOp(name) => OtherOpen(s, name, fd);
    case _ =>
  }

  lemma OtherOpen(s: State, name: seq<Byte>, fd: nat)
    requires s.Ok() && 1 <= s.counter && |Files(s)| == 8 && 2 <= fd < 8 && Files(s)[fd].used
    ensures |Open(s, name).0.pcbs| == PROCESSES && |Files(Open(s, name).0)| == 8
    ensures Open(s, name).0.counter == s.counter && Files(Open(s, name).0)[fd] == Files(s)[fd]
  {
    hide DiskOk, Lookup, Entry;
  }

  /** A step of a descendant. */
  lemma DescendantStep(s: State, op: Op, k: nat, fd: nat)
    requires HasOpen(s, k, fd) && Enabled(s, op) && k < s.counter && Contained(s, op)
    ensures |Step(s, op).pcbs| == PROCESSES && Step(s, op).pcbs[k - 1] == s.pcbs[k - 1]
  {
    hide Step, Enabled, Contained, PcbGood, SpaceGood, DiskGood, ReservedClear, IsOpenFile;
    StepKeepsBelowChild(s, op, k);
    assert Step(s, op).pcbs[..k][k - 1] == s.pcbs[..k][k - 1];
  }

  /** Any contained step moves the position of an open descriptor by the bytes of the file that it delivers
      on it: if and only if it is no failing read on that descriptor and no close of it. */
  lemma StepAdvances(s: State, op: Op, k: nat, fd: nat)
    requires HasOpen(s, k, fd) && Enabled(s, op) && Contained(s, op) && Step(s, op).counter >= k
    ensures Step(s, op).disk == s.disk && |Step(s, op).pcbs| == PROCESSES && |Step(s, op).pcbs[k - 1].files| == 8
    ensures Advanced(s.disk, FdOf(s, k, fd), FdOf(Step(s, op), k, fd), StepDelivers(s, op, k, fd))
       <==> LeavesOpen(s, op, k, fd)
    ensures LeavesOpen(s, op, k, fd) ==> HasOpen(Step(s, op), k, fd)
  {
    hide Step, Enabled, Contained, PcbGood, SpaceGood, DiskGood, ReservedClear, IsOpenFile, CanRead, ReadBytes,
      Contents;
    StepKeepsInv(s, op);
    if ReadsFd(s, op, k, fd) {
      OwnRead(s, op, k, fd);
    } else if s.counter == k && op == CloseOp(fd) {
      OwnClose(s, op, k, fd);
    } else {
      NotAdvanced(s.disk, FdOf(s, k, fd));
      if s.counter == k {
        OtherStep(s, op, k, fd);
      } else {
        DescendantStep(s, op, k, fd);
      }
    }
  }

  // ---- Runs ----

  /** The run leaves the descriptor open. */
  ghost predicate RunLeavesOpen(s: State, ops: seq<Op>, k: nat, fd: nat)
    requires RunEnabled(s, ops)
    decreases |ops|
  {
    ops == [] || (LeavesOpen(s, ops[0], k, fd) && RunLeavesOpen(Step(s, ops[0]), ops[1..], k, fd))
  }

  /** All bytes that reads on the descriptor store during the run. */
  ghost function Delivered(s: State, ops: seq<Op>, k: nat, fd: nat): seq<Byte>
    requires RunEnabled(s, ops)
    decreases |ops|
  {
    if ops == [] then [] else
      StepDelivers(s, ops[0], k, fd) + Delivered(Step(s, ops[0]), ops[1..], k, fd)
  }

  /** In every contained run in which process k lives on, with any other descriptors, opens and closes, and
      whole children with their own files in between: the bytes that reads of any sizes deliver on one
      descriptor are together the file from the position at the start to the position at the end, as long as
      none of them fails. */
  lemma {:induction false} DeliveredIsContents(s: State, ops: seq<Op>, k: nat, fd: nat)
    requires RunEnabled(s, ops) && RunContained(s, ops) && RunLeavesOpen(s, ops, k, fd)
    requires HasOpen(s, k, fd) && StaysAbove(s, ops, k - 1)
    ensures HasOpen(Run(s, ops), k, fd)
    ensures Advanced(s.disk, FdOf(s, k, fd), FdOf(Run(s, ops), k, fd), Delivered(s, ops, k, fd))
    decreases |ops|
  {
    hide Step, Enabled, Contained, Inv, IsOpenFile, LeavesOpen, Contents, StepDelivers;
    if ops == [] {
      NotAdvanced(s.disk, FdOf(s, k, fd));
    } else {
      var t := Step(s, ops[0]);
      StepAdvances(s, ops[0], k, fd);
      DeliveredIsContents(t, ops[1..], k, fd);
      AdvancedMore(s.disk, FdOf(s, k, fd), FdOf(t, k, fd), FdOf(Run(t, ops[1..]), k, fd),
                   StepDelivers(s, ops[0], k, fd), Delivered(t, ops[1..], k, fd));
    }
  }

  /** At every moment of the run what has been delivered is the file up to the position. */
  ghost predicate AlwaysAdvanced(s: State, ops: seq<Op>, k: nat, fd: nat)
    requires RunEnabled(s, ops)
    decreases |ops|
  {
    ops == [] ||
      var t := Step(s, ops[0]);
      && HasOpen(s, k, fd) && HasOpen(t, k, fd) && t.disk == s.disk
      && Advanced(s.disk, FdOf(s, k, fd), FdOf(t, k, fd), StepDelivers(s, ops[0], k, fd))
      && AlwaysAdvanced(t, ops[1..], k, fd)
  }

  /** And this is so exactly as long as no read on it fails and nobody closes it. */
  lemma {:induction false} AdvancesExactly(s: State, ops: seq<Op>, k: nat, fd: nat)
    requires RunEnabled(s, ops) && RunContained(s, ops)
    requires HasOpen(s, k, fd) && StaysAbove(s, ops, k - 1)
    ensures AlwaysAdvanced(s, ops, k, fd) <==> RunLeavesOpen(s, ops, k, fd)
    decreases |ops|
  {
    hide Step, Enabled, Contained, Inv, IsOpenFile, LeavesOpen, Contents, StepDelivers;
    if ops != [] {
      StepAdvances(s, ops[0], k, fd);
      if LeavesOpen(s, ops[0], k, fd) {
        AdvancesExactly(Step(s, ops[0]), ops[1..], k, fd);
      }
    }
  }
}
