/** Programs and files through the system calls: loading, sequential reading, open and close. */
module KernelFiles {
  import opened Bytes
  import opened Buffers
  import opened Paging
  import opened FileSystems
  import opened KernelSpec
  import opened KernelRuns

  /** A new program: byte i of its file is where its address PROGRAM_START + i leads, in the process's
      own frame, and no other byte of memory has changed. */
  lemma ProgramIsLoaded(s: State, call: Call, i: nat)
    requires Inv(s) && CallOk(s, call) && Execute(s, call).1.Entered?
    requires i < LengthOf(s.disk, NameOfCommand(call.command.value))
    ensures var t, k := Execute(s, call).0, s.counter + 1;
      var name := NameOfCommand(call.command.value);
      && Lookup(s.disk, name) != -1 && t.Ok() && t.cr3 == k - 1
      && Walk(t.tables, t.cr3, PROGRAM_START + i) == Mapped(LoadBase(k) + i, true, true)
      && InFrame(LoadBase(k) + i, k + 1)
      && t.mem[LoadBase(k) + i] == Contents(s.disk, Entry(s.disk, Lookup(s.disk, name)).inode)[i]
      && SameOutside(s.mem, t.mem, LoadBase(k), LoadBase(k) + LengthOf(s.disk, name))
  {
    hide DiskGood, Slice, FileByte, FindFrom, NameOf, Walk, Create, EntryPoint, FileLength, PcbGood, SpaceGood,
      FirstSpace, LoadCount, StoreAll, IsImage, FitsWindow, ReservedClear;
    var name, k := NameOfCommand(call.command.value), s.counter + 1;
    LoadFits(s.disk, name, k);
    ExecuteKeepsInv(s, call);
    NewPcb(s, call);
    var t := Execute(s, call).0;
    FileIsLoaded(s, call);
    TranslationIsPhys(t, PROGRAM_START + i);
  }

  lemma FileIsLoaded(s: State, call: Call)
    requires Inv(s) && CallOk(s, call) && Execute(s, call).1.Entered?
    ensures var name, k := NameOfCommand(call.command.value), s.counter + 1;
      && Lookup(s.disk, name) != -1
      && |LoadedBytes(s.disk, name)| == LengthOf(s.disk, name)
      && Written(s.mem, Execute(s, call).0.mem, LoadBase(k), LoadedBytes(s.disk, name))
  {
    hide StoreAll, EntryPoint, LoadedBytes, Create, PcbGood, SpaceGood, LoadCount, FirstSpace, FindFrom, IsImage,
      FitsWindow, FileLength, Written;
    LoadBounds(s.disk, NameOfCommand(call.command.value));
    LoadIsWritten(s.disk, s.mem, NameOfCommand(call.command.value), s.counter + 1);
  }

  /** A new program that asks for more bytes than its argument text has finds exactly this text, as a C
      string, at the address it gave; asking for fewer is refused. */
  lemma NewProgramGetsItsArguments(s: State, call: Call, buf: nat, n: nat)
    requires Inv(s) && CallOk(s, call) && Execute(s, call).1.Entered? && 0 < buf && InWindow(buf, n)
    ensures |Execute(s, call).0.mem| == MEMORY && Execute(s, call).0.counter == s.counter + 1 <= PROCESSES
    ensures |Execute(s, call).0.pcbs| == PROCESSES
    ensures var args, at := ArgsOfCommand(call.command.value), WindowPhys(s.counter + 1, buf);
      var (t, r) := GetArgs(Execute(s, call).0, buf, n);
      && (r == -1 <==> n < |args|)
      && (n > |args| ==> Terminated(t.mem, at) && CString(t.mem, at) == args)
  {
    hide Execute, PcbGood, SpaceGood, DiskGood, ReservedClear, Padded, StoreAll, CString, GetArgs, CallOk;
    ArgumentsAreStored(s, call);
    ArgumentsAreCopied(Execute(s, call).0, buf, n);
  }

  lemma ArgumentsAreCopied(s: State, buf: nat, n: nat)
    requires s.Ok() && 1 <= s.counter && 0 < buf && InWindow(buf, n)
    requires s.argSize == |s.pcbs[s.counter - 1].arg| && 0 !in s.pcbs[s.counter - 1].arg
    ensures var arg, at, (t, r) := s.pcbs[s.counter - 1].arg, WindowPhys(s.counter, buf), GetArgs(s, buf, n);
      && (r == -1 <==> n < |arg|)
      && (n > |arg| ==> Terminated(t.mem, at) && CString(t.mem, at) == arg)
  {
    hide DiskOk, StoreAll, CString, Padded, Spares;
    var arg := s.pcbs[s.counter - 1].arg;
    if n > |arg| {
      StoredInWindow(s.mem, s.counter, buf, Padded(arg, n));
      PaddedText(GetArgs(s, buf, n).0.mem, WindowPhys(s.counter, buf), arg, n);
    }
  }

  lemma ArgumentsAreStored(s: State, call: Call)
    requires Inv(s) && CallOk(s, call) && Execute(s, call).1.Entered?
    ensures var t, args := Execute(s, call).0, ArgsOfCommand(call.command.value);
      && t.counter == s.counter + 1 && t.Ok() && t.argSize == |args| && t.pcbs[s.counter].arg == args && 0 !in args
  {
    ExecuteKeepsInv(s, call);
    hide EntryPoint, LoadCount, LoadedBytes, Create, StoreAll, PcbGood, DiskGood, SpaceGood, ReservedClear, FirstSpace;
  }

  lemma PaddedText(m: seq<Byte>, at: nat, text: seq<Byte>, n: nat)
    requires |text| < n && at + n <= |m| && 0 !in text
    requires forall k {:trigger m[k]} :: at <= k < at + n ==> m[k] == Padded(text, n)[k - at]
    ensures Terminated(m, at) && CString(m, at) == text
  {
    assert m[at..at + |text|] == text;
    CStringIs(m, at, |text|);
  }

  // ---- Sequential reading ----

  /** A descriptor of an open regular file, read so far up to `position`. */
  ghost predicate IsOpenFile(img: seq<Byte>, f: Fd) {
    && NamesEnd(img) && f.ops == FileOps && f.used
    && Lookup(img, f.name) != -1 && Entry(img, Lookup(img, f.name)).inode == f.inode
    && WellFormedInode(img, f.inode) && f.position <= FileLength(img, f.inode)
  }

  /** In every state of a run a regular file's descriptor is of this kind, unless its position has run
      away: the name kept in it leads to the inode found when it was opened. */
  lemma FileDescriptors(s: State, fd: nat)
    requires Inv(s) && 1 <= s.counter && 2 <= fd < 8
    ensures |Files(s)| == 8 && NamesEnd(s.disk)
    ensures var f := Files(s)[fd];
      f.ops == FileOps ==> (IsOpenFile(s.disk, f) <==> f.position <= FileLength(s.disk, f.inode))
  {
    CurrentFiles(s);
    assert FdGood(s.disk, Files(s)[fd]);
  }

  /** A read of an open file fails exactly when it asks for nothing or reaches past the end of a file that
      fills its last block and whose next block-table entry is no block. */
  lemma ReadFailsExactly(img: seq<Byte>, f: Fd, n: nat)
    requires IsOpenFile(img, f)
    ensures var length := FileLength(img, f.inode); var bytes := NamedReadCount(img, f.name, f.position, n);
      && (bytes == -1 <==> !CanRead(img, f, n))
      && (bytes == -1 || bytes == Min(n, length - f.position))
  {
    hide ReadFails, WellFormedInode, NextEntryOk, FileLength, FindFrom;
    WellFormedReads(img, f.inode, f.position, n);
  }

  /** At least one byte is asked for; and if the read would go past the end, that end is not that of a full
      block without another number in the table behind it. */
  ghost predicate CanRead(img: seq<Byte>, f: Fd, n: nat) {
    1 <= n && (f.position < FileLength(img, f.inode) < f.position + n ==> NextEntryOk(img, f.inode))
  }

  /** File reads ask no device. */
  const NO_ANSWER := Answer(0, [])

  lemma SliceOfContents(img: seq<Byte>, inode: nat, offset: nat, n: nat)
    requires offset + n <= FileLength(img, inode)
    ensures Slice(img, inode, offset, n) == Contents(img, inode)[offset..offset + n]
    ensures |Contents(img, inode)| == FileLength(img, inode)
  {
    hide FileByte, Word;
  }

  lemma SmallPosition(p: nat)
    requires p <= MAX_BLOCKS * UNIT
    ensures p % WRAP == p
  {}

  lemma ReadMoves(img: seq<Byte>, f: Fd, n: nat, count: nat)
    requires IsOpenFile(img, f) && CanRead(img, f, n)
    requires count == Min(n, FileLength(img, f.inode) - f.position)
    ensures ReadFd(img, f, n, NO_ANSWER) == (f.(position := f.position + count), count)
  {
    hide CanRead, NamedReadCount, FileLength, FindFrom, BlockNo;
    ReadFailsExactly(img, f, n);
    OpenFileLength(img, f);
    hide IsOpenFile;
    SmallPosition(f.position + count);
  }

  lemma OpenFileLength(img: seq<Byte>, f: Fd)
    requires IsOpenFile(img, f)
    ensures FileLength(img, f.inode) <= MAX_BLOCKS * UNIT
  {}

  lemma StoredIsSlice(img: seq<Byte>, f: Fd, n: nat, count: nat)
    requires IsOpenFile(img, f) && 1 <= n && ReadFd(img, f, n, NO_ANSWER).1 == count
    ensures ReadBytes(img, f, n, NO_ANSWER) == Slice(img, f.inode, f.position, count)
  {
    hide StoredCount, ReadCount, Slice, FindFrom, WellFormedInode;
    StoredBounds(img, f.inode, f.position, n);
  }

  /** A read delivers the next min(n, rest) bytes of the file, and the position moves by them. */
  lemma ReadAdvances(img: seq<Byte>, f: Fd, n: nat)
    requires IsOpenFile(img, f) && CanRead(img, f, n)
    ensures var count := Min(n, FileLength(img, f.inode) - f.position);
      && ReadFd(img, f, n, NO_ANSWER) == (f.(position := f.position + count), count)
      && f.position + count <= |Contents(img, f.inode)|
      && ReadBytes(img, f, n, NO_ANSWER) == Contents(img, f.inode)[f.position..f.position + count]
  {
    hide NextEntryOk, ReadFd, ReadBytes, Contents, Slice, FileLength, WellFormedInode, FindFrom;
    var count := Min(n, FileLength(img, f.inode) - f.position);
    ReadMoves(img, f, n, count);
    StoredIsSlice(img, f, n, count);
    SliceOfContents(img, f.inode, f.position, count);
  }

  /** A failing read moves the position back by one, and below 0 to the largest number. */
  lemma FailedReadMovesBack(img: seq<Byte>, f: Fd, n: nat, device: Answer)
    requires IsOpenFile(img, f) && !CanRead(img, f, n)
    ensures ReadFd(img, f, n, device) == (f.(position := if f.position == 0 then WRAP - 1 else f.position - 1), -1)
  {
    hide CanRead, NamedReadCount, FileLength, FindFrom, BlockNo;
    ReadFailsExactly(img, f, n);
    OpenFileLength(img, f);
  }

  /** Asking for no bytes at the start of a file: from then on every read reports the end of the file. */
  lemma ReadOfNothingAtStart(img: seq<Byte>, f: Fd, n: nat, device: Answer)
    requires IsOpenFile(img, f) && f.position == 0 && 1 <= n
    ensures !CanRead(img, f, 0)
    ensures var g := ReadFd(img, f, 0, device).0; g.position == WRAP - 1 && ReadFd(img, g, n, device) == (g, 0)
  {
    hide FileLength, FindFrom, BlockNo, WellFormedInode;
    OpenFileLength(img, f);
  }

  /** Process `s.counter` can read its open file `fd` to the end, to the memory from `buf` on. */
  ghost predicate LoopReady(s: State, fd: nat, buf: nat) {
    && Inv(s) && s.Ok() && 1 <= s.counter && 2 <= fd < 8 && |Files(s)| == 8 && IsOpenFile(s.disk, Files(s)[fd])
    && Files(s)[fd].position <= FileLength(s.disk, Files(s)[fd].inode)
    && NextEntryOk(s.disk, Files(s)[fd].inode)
    && InWindow(buf, FileLength(s.disk, Files(s)[fd].inode) - Files(s)[fd].position)
  }

  /** From `s` to `t` the next `count` bytes of the file have gone to `buf`, the position has moved by
      them, and nothing else has changed. */
  ghost predicate ReadInto(s: State, t: State, fd: nat, buf: nat, count: nat)
    requires LoopReady(s, fd, buf)
  {
    var f := Files(s)[fd];
    && f.position + count <= |Contents(s.disk, f.inode)|
    && t == SetFile(s, fd, f.(position := f.position + count)).(mem := t.mem)
    && Written(s.mem, t.mem, WindowPhys(s.counter, buf), Contents(s.disk, f.inode)[f.position..f.position + count])
  }

  lemma LoopReads(s: State, fd: nat, buf: nat, n: nat)
    requires LoopReady(s, fd, buf) && 1 <= n < 0x8000_0000
    ensures Enabled(s, ReadOp(fd, buf, n, NO_ANSWER))
    ensures Contained(s, ReadOp(fd, buf, n, NO_ANSWER))
  {
    hide Inv, NextEntryOk, FileLength, WellFormedInode, FindFrom, ReadBytes, Contents;
    ReadAdvances(s.disk, Files(s)[fd], n);
    InWindowIsFine(buf, |ReadBytes(s.disk, Files(s)[fd], n, NO_ANSWER)|, HasVideo(s.tables, s.counter));
  }

  lemma InWindowIsFine(la: nat, n: nat, video: bool)
    requires InWindow(la, n)
    ensures AllPresent(la, n, video) && Spares(la, n)
  {}

  /** One read of the loop. */
  lemma LoopStep(s: State, fd: nat, buf: nat, n: nat)
    requires LoopReady(s, fd, buf) && 1 <= n < 0x8000_0000
    ensures Enabled(s, ReadOp(fd, buf, n, NO_ANSWER))
    ensures var (t, bytes) := Read(s, fd, buf, n, NO_ANSWER);
      && bytes == Min(n, FileLength(s.disk, Files(s)[fd].inode) - Files(s)[fd].position)
      && ReadInto(s, t, fd, buf, bytes) && LoopReady(t, fd, buf + bytes)
  {
    hide Inv, NextEntryOk, FileLength, WellFormedInode, FindFrom, ReadFd, ReadBytes, Contents, Enabled, Contained,
      StoreAll, Spares, Written;
    LoopReads(s, fd, buf, n);
    ReadKeepsInv(s, fd, buf, n, NO_ANSWER);
    ReadAdvances(s.disk, Files(s)[fd], n);
    InWindowIsFine(buf, |ReadBytes(s.disk, Files(s)[fd], n, NO_ANSWER)|, false);
    StoredInWindow(s.mem, s.counter, buf, ReadBytes(s.disk, Files(s)[fd], n, NO_ANSWER));
  }

  lemma WrittenTwice(m: seq<Byte>, m1: seq<Byte>, m2: seq<Byte>, at: nat, a: seq<Byte>, b: seq<Byte>)
    requires Written(m, m1, at, a) && Written(m1, m2, at + |a|, b)
    ensures Written(m, m2, at, a + b)
  {
    assert forall k {:trigger m2[k]} :: 0 <= k < |m2| ==> (k < at + |a| || at + |a| + |b| <= k ==> m2[k] == m1[k]);
  }

  lemma Consecutive(s: seq<Byte>, a: nat, b: nat, c: nat)
    requires a <= b <= c <= |s|
    ensures s[a..b] + s[b..c] == s[a..c]
  {}

  lemma SetFileTwice(s: State, t: State, u: State, fd: nat, f: Fd, g: Fd)
    requires 1 <= s.counter <= |s.pcbs| && fd < |Files(s)|
    requires t == SetFile(s, fd, f).(mem := t.mem) && u == SetFile(t, fd, g).(mem := u.mem)
    ensures u == SetFile(s, fd, g).(mem := u.mem)
  {
    var k := s.counter - 1;
    assert t.pcbs[k].files[fd := g] == s.pcbs[k].files[fd := g];
    assert u.pcbs == s.pcbs[k := s.pcbs[k].(files := s.pcbs[k].files[fd := g])];
  }

  lemma ReadNothing(s: State, fd: nat, buf: nat)
    requires LoopReady(s, fd, buf)
    ensures ReadInto(s, s, fd, buf, 0)
  {
    hide Inv, NextEntryOk, FileLength, IsOpenFile;
    var k, f := s.counter - 1, Files(s)[fd];
    assert s.pcbs[k].files[fd := f] == s.pcbs[k].files;
    assert s.pcbs[k := s.pcbs[k]] == s.pcbs;
  }

  lemma ReadIntoMore(s: State, t: State, u: State, fd: nat, buf: nat, a: nat, b: nat)
    requires LoopReady(s, fd, buf) && ReadInto(s, t, fd, buf, a)
    requires LoopReady(t, fd, buf + a) && ReadInto(t, u, fd, buf + a, b)
    ensures ReadInto(s, u, fd, buf, a + b)
  {
    hide Inv, NextEntryOk, IsOpenFile, Contents, Written, FileLength;
    var f := Files(s)[fd];
    SetFileTwice(s, t, u, fd, f.(position := f.position + a), f.(position := f.position + a + b));
    var all := Contents(s.disk, f.inode);
    Consecutive(all, f.position, f.position + a, f.position + a + b);
    WrittenTwice(s.mem, t.mem, u.mem, WindowPhys(s.counter, buf), all[f.position..f.position + a],
                 all[f.position + a..f.position + a + b]);
  }

  predicate Positive(sizes: seq<nat>) {
    forall i {:trigger sizes[i]} :: 0 <= i < |sizes| ==> 1 <= sizes[i] < 0x8000_0000
  }

  /** A program's reading loop: one read after the other, each to where the last one ended. */
  ghost function ReadLoop(s: State, fd: nat, buf: nat, sizes: seq<nat>): State
    requires LoopReady(s, fd, buf) && Positive(sizes)
    decreases |sizes|
  {
    hide IsOpenFile, NextEntryOk, FileLength, ReadInto, DiskGood, PcbGood, SpaceGood;
    if sizes == [] then s else
      LoopStep(s, fd, buf, sizes[0]);
      var (t, bytes) := Read(s, fd, buf, sizes[0], NO_ANSWER);
      ReadLoop(t, fd, buf + bytes, sizes[1..])
  }

  /** Reads of any positive sizes put consecutive pieces of the file one behind the other into the memory
      of the process: together the file from the old position to the new one, which is its end after at
      most as many reads as bytes were left. Nothing else in the machine changes. */
  lemma {:induction false} ReadLoopIsContents(s: State, fd: nat, buf: nat, sizes: seq<nat>) returns (count: nat)
    requires LoopReady(s, fd, buf) && Positive(sizes)
    ensures ReadInto(s, ReadLoop(s, fd, buf, sizes), fd, buf, count)
    ensures var rest := FileLength(s.disk, Files(s)[fd].inode) - Files(s)[fd].position;
      count <= rest && (rest <= |sizes| ==> count == rest)
    decreases |sizes|
  {
    hide Inv, NextEntryOk, FileLength, Contents, Read, Written, IsOpenFile;
    count := 0;
    if sizes == [] {
      ReadNothing(s, fd, buf);
    } else {
      LoopStep(s, fd, buf, sizes[0]);
      var (t, bytes) := Read(s, fd, buf, sizes[0], NO_ANSWER);
      var more := ReadLoopIsContents(t, fd, buf + bytes, sizes[1..]);
      count := bytes + more;
      ReadIntoMore(s, t, ReadLoop(t, fd, buf + bytes, sizes[1..]), fd, buf, bytes, more);
    }
  }

  // ---- open and close ----

  /** open of an ordinary name: the lowest free descriptor of 2..7, or -1 exactly when no entry has this
      name or all six are in use. */
  lemma OpenIsLowest(s: State, name: seq<Byte>)
    requires Inv(s) && 1 <= s.counter && First(name, 5) != STDIN_5 && First(name, 5) != STDOUT_5
    ensures |Files(s)| == 8
    ensures var (t, fd) := Open(s, name);
      && (fd == -1 <==> Lookup(s.disk, name) == -1 || forall i :: 2 <= i < 8 ==> Files(s)[i].ops != NoOps)
      && if fd == -1 then t == s else
           && 2 <= fd < 8 && Files(s)[fd].ops == NoOps && (forall i :: 2 <= i < fd ==> Files(s)[i].ops != NoOps)
           && t == SetFile(s, fd, Files(t)[fd]) && Files(t)[fd].ops != NoOps
           && Files(t)[fd].name == name && Files(t)[fd].position == 0
  {
    CurrentFiles(s);
    assert forall i :: 2 <= i < 8 ==> FdGood(s.disk, Files(s)[i]);
    if Lookup(s.disk, name) != -1 {
      assert Entry(s.disk, Lookup(s.disk, name)).filetype <= 2;
    }
    hide Inv, DiskGood;
  }

  /** On any memory-safe disk: a descriptor just taken into use has an operation table exactly when its
      entry is a clock, a directory or a regular file. */
  lemma OpenedHasOperations(s: State, name: seq<Byte>)
    requires s.Ok() && 1 <= s.counter && |Files(s)| == 8 && Open(s, name).1 >= 2
    requires Files(s)[Open(s, name).1].ops == NoOps
    ensures var (t, fd) := Open(s, name);
      && Lookup(s.disk, name) != -1 && Files(t)[fd].used
      && (Files(t)[fd].ops != NoOps <==> Entry(s.disk, Lookup(s.disk, name)).filetype <= 2)
  {
    hide DiskOk, FindFrom, NameOf;
  }

  /** Closing what was just opened restores the whole state. */
  lemma CloseUndoesOpen(s: State, name: seq<Byte>)
    requires Inv(s) && 1 <= s.counter && |Files(s)| == 8 && Open(s, name).1 >= 2
    ensures Close(Open(s, name).0, Open(s, name).1) == (s, 0)
  {
    hide FindFrom, IsImage, FitsWindow, SpaceGood, ReservedClear, NameOf, Word, First;
    CurrentFiles(s);
    var (t, fd) := Open(s, name);
    assert FdGood(s.disk, Files(s)[fd]);
    var k := s.counter - 1;
    assert s.pcbs[k].files[fd] == CLOSED;
    assert t == SetFile(s, fd, t.pcbs[k].files[fd]);
    assert t.pcbs[k].files[fd := CLOSED] == s.pcbs[k].files;
    assert t.pcbs[k := s.pcbs[k]] == s.pcbs;
  }

  /** A file just opened is ready for sequential reading from its start. */
  lemma OpenedFileIsAtStart(s: State, name: seq<Byte>)
    requires Inv(s) && 1 <= s.counter && |Files(s)| == 8 && Open(s, name).1 >= 2
    requires Entry(s.disk, Lookup(s.disk, name)).filetype == 2
    ensures var (t, fd) := Open(s, name);
      && Lookup(s.disk, name) != -1 && 2 <= fd < 8
      && |t.pcbs| == PROCESSES && t.counter == s.counter && |Files(t)| == 8
      && t == SetFile(s, fd, Files(t)[fd])
      && IsOpenFile(s.disk, Files(t)[fd]) && Files(t)[fd].position == 0
      && Files(t)[fd].inode == Entry(s.disk, Lookup(s.disk, name)).inode
  {
    assert WellFormedInode(s.disk, Entry(s.disk, Lookup(s.disk, name)).inode);
    hide Inv, DiskGood;
  }

  lemma OpenedIsReady(s: State, name: seq<Byte>, buf: nat)
    requires Inv(s) && 1 <= s.counter && |Files(s)| == 8 && Open(s, name).1 >= 2
    requires Entry(s.disk, Lookup(s.disk, name)).filetype == 2
    requires NextEntryOk(s.disk, Entry(s.disk, Lookup(s.disk, name)).inode)
    requires InWindow(buf, LengthOf(s.disk, name))
    ensures var (t, fd) := Open(s, name);
      && Lookup(s.disk, name) != -1 && LoopReady(t, fd, buf)
      && t.mem == s.mem && t.disk == s.disk && t.counter == s.counter
      && Files(t)[fd].position == 0 && Files(t)[fd].inode == Entry(s.disk, Lookup(s.disk, name)).inode
  {
    hide Open, NextEntryOk, FileLength, FindFrom, WellFormedInode, PcbGood, DiskGood, SpaceGood, ReservedClear;
    OpenedFileIsAtStart(s, name);
    OpenKeepsInv(s, name);
  }

  /** Opening a regular file and reading it in pieces of any sizes until nothing is left puts the whole
      file into the memory of the process. */
  lemma WholeFileIsRead(s: State, name: seq<Byte>, buf: nat, sizes: seq<nat>)
    requires Inv(s) && 1 <= s.counter && |Files(s)| == 8 && Open(s, name).1 >= 2
    requires Entry(s.disk, Lookup(s.disk, name)).filetype == 2
    requires NextEntryOk(s.disk, Entry(s.disk, Lookup(s.disk, name)).inode)
    requires InWindow(buf, LengthOf(s.disk, name)) && Positive(sizes) && LengthOf(s.disk, name) <= |sizes|
    ensures var (t, fd) := Open(s, name);
      && LoopReady(t, fd, buf)
      && Written(s.mem, ReadLoop(t, fd, buf, sizes).mem, WindowPhys(s.counter, buf),
                 Contents(s.disk, Entry(s.disk, Lookup(s.disk, name)).inode))
  {
    hide Open, NextEntryOk, FileLength, ReadLoop, FindFrom, IsOpenFile, Written, Contents, PcbGood, DiskGood, SpaceGood;
    OpenedIsReady(s, name, buf);
    var (t, fd) := Open(s, name);
    var count := ReadLoopIsContents(t, fd, buf, sizes);
    var inode := Files(t)[fd].inode;
    SliceOfContents(s.disk, inode, 0, FileLength(s.disk, inode));
    assert Contents(s.disk, inode)[0..count] == Contents(s.disk, inode);
  }
}
