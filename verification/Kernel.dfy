/** The kernel of student-distrib/systemcall.c: its globals, and the system calls that update them in
    place. Each call is proved to take the state where module KernelSpec says. */
module Kernels {
  import opened Bytes
  import opened Buffers
  import opened Paging
  import opened FileSystems
  import opened KernelSpec
  import opened KernelRuns

  class Kernel {
    const pages: PageUnit
    const fs: FileSystem
    const pcbs: array<Pcb>
    const mem: array<Byte>
    var counter: nat
    var argSize: nat
    var shellEntry: nat
    var esp0: nat
    ghost var intact: bool

    ghost predicate Valid()
      reads this, pages, fs, pcbs
    {
      && pages.Valid() && fs.Valid() && DiskOk(fs.image) && counter <= PROCESSES
      && pcbs.Length == PROCESSES && mem.Length == MEMORY
      && (forall i {:trigger pcbs[i]} :: 0 <= i < PROCESSES ==> |pcbs[i].files| == 8)
      && (pcbs as object) != mem && (pages.shell as object) !in {pcbs as object, mem}
      && (pages.video as object) !in {pcbs as object, mem} && (pages.dirs as object) !in {pcbs as object, mem}
    }

    ghost function View(): (s: State)
      requires Valid()
      reads this, pages, pages.dirs, pages.shell, pages.video, fs, pcbs, mem
      ensures s.Ok() && s.counter == counter && forall i :: 0 <= i < PROCESSES ==> |s.pcbs[i].files| == 8
    {
      State(counter, argSize, shellEntry, pages.cr3, esp0, pages.View(), pcbs[..], mem[..], fs.image, intact)
    }

    /** The state after boot: paging initialised, no process yet. */
    constructor (pages: PageUnit, fs: FileSystem)
      requires pages.Valid() && fs.Valid() && DiskOk(fs.image)
      modifies pages, pages.dirs, pages.shell
      ensures Valid() && fresh(pcbs) && fresh(mem) && this.pages == pages && this.fs == fs
      ensures counter == 0 && esp0 == BOTTOM_STACK && pages.cr3 == 0 && intact
      ensures pages.View() == Init(old(pages.View()))
    {
      this.pages, this.fs := pages, fs;
      pcbs := new Pcb[PROCESSES](_ => Pcb(0, 0, 0, 0, NewFiles(), []));
      mem := new Byte[MEMORY](_ => 0);
      counter, argSize, shellEntry, esp0 := 0, 0, 0, BOTTOM_STACK;
      intact := true;
      new;
      pages.InitPaging();
    }

    // ---- execute() ----

    /** The two parsing loops of execute: the bytes up to the first space, read as a C string from then on,
        and the arguments behind it. */
    static method Parse(command: seq<Byte>) returns (name: seq<Byte>, args: seq<Byte>)
      requires Parses(command)
      ensures name == NameOfCommand(command) && args == ArgsOfCommand(command)
    {
      hide FirstSpace, CString;
      ghost var space := FirstSpace(command);
      var i := 0;
      var buffer := [];
      while i < 32 && command[i] != SPACE
        invariant 0 <= i <= space && buffer == command[..i]
        decreases space - i
      {
        buffer := buffer + [command[i]];
        i := i + 1;
      }
      FirstSpaceIs(command, i);
      buffer := buffer + [0];
      assert buffer[i] == 0;
      name := CString(buffer, 0);
      i := i + 1;
      args := [];
      while command[i] != 0
        invariant space + 1 <= i <= space + 1 + |CString(command, space + 1)| && args == command[space + 1..i]
        decreases |command| - i
      {
        args := args + [command[i]];
        i := i + 1;
      }
      NulIsEnd(command, space + 1, i);
    }

    /** A read of four bytes of the file `name` into a local that holds `local`. */
    method ReadLocal(name: seq<Byte>, offset: nat, local: seq<Byte>) returns (r: Option<seq<Byte>>)
      requires Valid() && 0 !in name && |local| == 4
      ensures r == ReadFour(fs.image, name, offset, local)
    {
      hide NamedReadCount, NamedBytes, Lookup, Slice, DiskOk;
      NamedBounds(fs.image, name, offset, 4);
      var buf := new Byte[4](i requires 0 <= i < 4 => local[i]);
      RoomForFour(fs.image, name, offset);
      ghost var bytes := NamedBytes(fs.image, name, offset, 4);
      StoreAllIsWritten(buf[..], Flat(0), 0, bytes);
      var n := fs.FileRead(buf, Flat(0), offset, 4, name);
      if n == -1 {
        return None;
      }
      assert buf[..] == bytes + local[n..];
      return Some(buf[..]);
    }

    /** check_executable() and the read of the entry point behind it. */
    method FindEntry(name: seq<Byte>, temp: seq<Byte>, buf: seq<Byte>) returns (r: Option<nat>)
      requires Valid() && 0 !in name && |temp| == 4 && |buf| == 4
      ensures r == EntryPoint(fs.image, name, temp, buf)
    {
      hide ReadFour;
      var magic := ReadLocal(name, 0, temp);
      if magic == None {
        return None;
      }
      var m := magic.value;
      if m != MAGIC {
        return None;
      }
      var entry := ReadLocal(name, CODE_STARTING_POINT, buf);
      if entry == None {
        return None;
      }
      var b := entry.value;
      return Some(Word(b, 0));
    }

    /** Opening the descriptors of a new process. */
    static method InitFiles(old_files: seq<Fd>) returns (files: seq<Fd>)
      requires |old_files| == 8
      ensures files == NewFiles()
    {
      files := old_files[0 := Fd(StdinOps, STDIN_NAME, 0, 0, true)];
      files := files[1 := Fd(StdoutOps, STDOUT_NAME, 0, 0, true)];
      var i := 2;
      while i < 8
        invariant 2 <= i <= 8 && |files| == 8
        invariant files[0] == Fd(StdinOps, STDIN_NAME, 0, 0, true)
        invariant files[1] == Fd(StdoutOps, STDOUT_NAME, 0, 0, true)
        invariant forall j :: 2 <= j < i ==> files[j] == CLOSED
      {
        files := files[i := Fd(NoOps, [], 0, 0, false)];
        i := i + 1;
      }
    }

    /** Steps 3 and 4 of execute: paging for the new process, and its program into memory. */
    method LoadProgram(name: seq<Byte>, args: seq<Byte>, entry: nat) returns (a: int)
      requires Valid() && counter < PROCESSES && argSize == |args| && 0 !in name
      requires Lookup(fs.image, name) != -1
      modifies this, pages, pages.dirs, pages.shell, mem
      ensures Valid() && a == LoadCount(fs.image, name)
      ensures View() == Admitted(old(View()), name, args, entry)
    {
      hide DiskOk, LoadCount, LoadedBytes, Create, Lookup, LengthOf, HasRoom, StoreAll;
      counter := counter + 1;
      if counter == 1 {
        shellEntry := entry;
      }
      pages.CreatePaging(counter);
      RoomForFile(fs.image, name, counter);
      a := fs.FileLoad(name, mem, Linear(counter, PROGRAM_START));
    }

    /** Steps 5 and 6 of execute: the control block and tss.esp0. */
    method SetUpPcb(args: seq<Byte>, esp: nat, ebp: nat)
      requires Valid() && 1 <= counter && (counter > 1 ==> InStack(counter - 1, esp))
      modifies this`esp0, pcbs
      ensures Valid() && View() == Launched(old(View()), args, esp, ebp)
    {
      hide DiskOk, NewFiles;
      var k := counter;
      var parent := 0;
      if k != 1 {
        MaskInStack(k - 1, esp);
        parent := pcbs[(BOTTOM_STACK - Mask(esp)) / STACK_SIZE - 1].pid;
      }
      var files := InitFiles(pcbs[k - 1].files);
      pcbs[k - 1] := Pcb(k, parent, esp, ebp, files, args);
      esp0 := BOTTOM_STACK - (counter - 1) * STACK_SIZE - 4;
    }

    /** What execute does once it has room, a program and its entry point. */
    method Launch(name: seq<Byte>, args: seq<Byte>, entry: nat, esp: nat, ebp: nat) returns (r: Outcome)
      requires Valid() && counter < PROCESSES && argSize == |args| && 0 !in name
      requires Lookup(fs.image, name) != -1 && (counter >= 1 ==> InStack(counter, esp))
      modifies this, pages, pages.dirs, pages.shell, pcbs, mem
      ensures Valid()
      ensures var t := Admitted(old(View()), name, args, entry);
        (View(), r) == if LoadCount(fs.image, name) == FAIL then (t, Refused)
                       else (Launched(t, args, esp, ebp), Entered(entry))
    {
      hide DiskOk, LoadCount, Lookup, Launched, LoadedBytes, Create, StoreAll;
      var a := LoadProgram(name, args, entry);
      if a == -1 {
        return Refused;
      }
      SetUpPcb(args, esp, ebp);
      return Entered(entry);
    }

    /** execute(): `temp` and `buf` are what its uninitialised locals hold. */
    method Execute(command: Option<seq<Byte>>, esp: nat, ebp: nat, temp: seq<Byte>, buf: seq<Byte>) returns (r: Outcome)
      requires Valid() && CallOk(View(), Call(command, esp, ebp, temp, buf))
      modifies this, pages, pages.dirs, pages.shell, pcbs, mem
      ensures Valid() && (View(), r) == KernelSpec.Execute(old(View()), Call(command, esp, ebp, temp, buf))
    {
      hide DiskOk, EntryPoint, Launched, Admitted, LoadCount, Lookup;
      if counter >= 6 {
        return Refused;
      }
      if command == None {
        return Refused;
      }
      var name, args := Parse(command.value);
      argSize := |args|;
      var entry := FindEntry(name, temp, buf);
      if entry == None {
        return Refused;
      }
      AdmittedAnyway(old(View()), argSize, name, args, entry.value);
      assert View() == old(View()).(argSize := argSize);
      r := Launch(name, args, entry.value, esp, ebp);
    }

    /** One store of the kernel, byte `i` of a buffer. */
    method StoreByte(dest: Buffer, i: nat, b: Byte, ghost was: seq<Byte>, ghost data: seq<Byte>)
      requires mem.Length == MEMORY && i == |data| && dest.Place(i) < MEMORY
      requires mem[..] == StoreAll(was, dest, data)
      modifies mem
      ensures mem[..] == StoreAll(was, dest, data + [b])
    {
      StoreOneMore(was, dest, data, b);
      mem[dest.Place(i)] := b;
    }

    /** clear(): a blank and the attribute for every cell. */
    method Clear()
      requires mem.Length == MEMORY
      modifies mem
      ensures mem[..] == StoreAll(old(mem[..]), Flat(VIDEO), ClearedScreen())
    {
      hide StoreAll;
      ghost var was, all := mem[..], ClearedScreen();
      StoreNothing(was, Flat(VIDEO));
      assert all[..0] == [];
      var i := 0;
      while i < 2000
        invariant 0 <= i <= 2000 && mem[..] == StoreAll(was, Flat(VIDEO), all[..2 * i])
      {
        StoreByte(Flat(VIDEO), 2 * i, BLANK, was, all[..2 * i]);
        assert all[..2 * i + 1] == all[..2 * i] + [BLANK];
        StoreByte(Flat(VIDEO), 2 * i + 1, 7, was, all[..2 * i + 1]);
        assert all[..2 * (i + 1)] == all[..2 * i + 1] + [7];
        i := i + 1;
      }
      assert all[..4000] == all;
    }

    /** halt() */
    method Halt(status: Byte) returns (r: Return)
      requires Valid() && 1 <= counter
      requires pcbs[counter - 1].pid != 1 ==> 1 <= pcbs[counter - 1].parentPid
      modifies this, pages`cr3, mem
      ensures Valid() && (View(), r) == KernelSpec.Halt(old(View()), status)
    {
      hide StoreAll, DiskOk, ClearedScreen;
      var pcb := pcbs[counter - 1];
      if pcb.pid == 1 {
        Clear();
        return ShellAgain(shellEntry);
      }
      counter := counter - 1;
      pages.LoadCr3(pcb.parentPid - 1);
      esp0 := BOTTOM_STACK - (counter - 1) * STACK_SIZE - 4;
      return Back(pcb.parentEsp, pcb.parentEbp, status);
    }

    /** An assignment to one descriptor of the current process. */
    method SetFd(fd: nat, f: Fd)
      requires Valid() && 1 <= counter && fd < 8
      modifies pcbs
      ensures Valid() && View() == SetFile(old(View()), fd, f)
    {
      var k := counter - 1;
      pcbs[k] := pcbs[k].(files := pcbs[k].files[fd := f]);
    }

    /** close() */
    method Close(fd: int) returns (r: int)
      requires Valid() && 1 <= counter
      requires 2 <= fd <= 7 && pcbs[counter - 1].files[fd].used ==> pcbs[counter - 1].files[fd].ops != NoOps
      modifies pcbs
      ensures Valid() && (View(), r) == KernelSpec.Close(old(View()), fd)
    {
      if fd < 2 || fd > 7 {
        return -1;
      }
      if pcbs[counter - 1].files[fd].used {
        SetFd(fd, Fd(NoOps, [], 0, 0, false));
        return 0;
      } else {
        return -1;
      }
    }

    /** strncpy() to the program's memory: `n` characters, NULs behind the text. */
    method Strncpy(la: nat, text: seq<Byte>, n: nat)
      requires mem.Length == MEMORY && 1 <= counter <= PROCESSES && Linear(counter, la).Fits(n, MEMORY)
      modifies mem
      ensures mem[..] == StoreAll(old(mem[..]), Linear(counter, la), Padded(text, n))
    {
      hide StoreAll;
      StoreNothing(mem[..], Linear(counter, la));
      assert Padded(text, 0) == [];
      var i := 0;
      while i < n && i < |text|
        invariant 0 <= i <= n && i <= |text|
        invariant mem[..] == StoreAll(old(mem[..]), Linear(counter, la), Padded(text, i))
      {
        assert Linear(counter, la).Place(i) < MEMORY;
        StoreByte(Linear(counter, la), i, text[i], old(mem[..]), Padded(text, i));
        assert Padded(text, i + 1) == Padded(text, i) + [text[i]];
        i := i + 1;
      }
      while i < n
        invariant 0 <= i <= n && (i < n ==> |text| <= i)
        invariant mem[..] == StoreAll(old(mem[..]), Linear(counter, la), Padded(text, i))
      {
        assert Linear(counter, la).Place(i) < MEMORY;
        StoreByte(Linear(counter, la), i, 0, old(mem[..]), Padded(text, i));
        assert Padded(text, i + 1) == Padded(text, i) + [0];
        i := i + 1;
      }
    }

    /** getargs() */
    method GetArgs(buf: nat, nbytes: int) returns (r: int)
      requires Valid() && 1 <= counter
      requires buf != 0 && nbytes >= argSize ==> AllPresent(buf, nbytes, HasVideo(View().tables, counter))
      modifies mem, this`intact
      ensures Valid() && (View(), r) == KernelSpec.GetArgs(old(View()), buf, nbytes)
    {
      hide StoreAll, Padded, DiskOk, AllPresent, Spares;
      if buf == 0 || nbytes < argSize {
        return -1;
      }
      PresentFits(counter, buf, nbytes, HasVideo(View().tables, counter));
      Strncpy(buf, pcbs[counter - 1].arg, nbytes);
      intact := intact && Spares(buf, nbytes);
      return 0;
    }

    /** vidmap(), with the store of the address to the caller's memory. */
    method Vidmap(screenStart: nat) returns (r: int)
      requires Valid() && 1 <= counter
      modifies pages.dirs, pages.video, mem
      ensures Valid() && (View(), r) == KernelSpec.Vidmap(old(View()), screenStart)
    {
      hide MapVideo, DiskOk, StoreAll;
      if screenStart < USER_START || screenStart >= USER_END {
        return -1;
      }
      pages.MapVideoPage(counter);
      StoreNothing(mem[..], Linear(counter, screenStart));
      ghost var was := mem[..];
      assert [0] == [] + [0] && [0, 0] == [0] + [0] && [0, 0, 0x40] == [0, 0] + [0x40];
      assert SCREEN_BYTES == [0, 0, 0x40] + [0x08];
      StoreByte(Linear(counter, screenStart), 0, 0, was, []);
      StoreByte(Linear(counter, screenStart), 1, 0, was, [0]);
      StoreByte(Linear(counter, screenStart), 2, 0x40, was, [0, 0]);
      StoreByte(Linear(counter, screenStart), 3, 0x08, was, [0, 0, 0x40]);
      assert Spares(screenStart, 4);
      return 0;
    }

    /** open(): the scan for a free descriptor. */
    method FindVacant() returns (v: int)
      requires Valid() && 1 <= counter
      ensures v == Vacant(pcbs[counter - 1].files, 2)
    {
      var i := 2;
      while i < 8
        invariant 2 <= i <= 8 && Vacant(pcbs[counter - 1].files, 2) == Vacant(pcbs[counter - 1].files, i)
      {
        if !pcbs[counter - 1].files[i].used {
          return i;
        }
        i := i + 1;
      }
      return -1;
    }

    /** open() */
    method Open(name: seq<Byte>) returns (r: int)
      requires Valid() && 1 <= counter && 0 !in name
      modifies pcbs
      ensures Valid() && (View(), r) == KernelSpec.Open(old(View()), name)
    {
      hide First, SetFile, Lookup, Entry, DiskOk, Vacant;
      var files := pcbs[counter - 1].files;
      if First(name, 5) == STDIN_5 {
        SetFd(0, files[0].(ops := StdinOps, used := true));
        return 0;
      }
      if First(name, 5) == STDOUT_5 {
        SetFd(1, files[1].(ops := StdoutOps, used := true));
        return 0;
      }
      var found, d := fs.ReadDentryByName(name);
      if found == -1 {
        return -1;
      }
      var v := FindVacant();
      if v == -1 {
        return -1;
      }
      var ops := files[v].ops;
      if d.filetype == 2 {
        ops := FileOps;
      } else if d.filetype == 1 {
        ops := DirectoryOps;
      } else if d.filetype == 0 {
        ops := RtcOps;
      }
      SetFd(v, Fd(ops, name, d.inode, 0, true));
      return v;
    }

    /** read(): `device` is the answer of an operation that is not file_read. */
    method Read(fd: int, buf: nat, nbytes: int, device: Answer) returns (bytes: int)
      requires Valid() && 1 <= counter && -0x8000_0000 <= nbytes < 0x8000_0000
      requires 0 <= fd <= 7 && buf != 0 && pcbs[counter - 1].files[fd].used ==>
        Readable(pcbs[counter - 1].files[fd], buf, Unsigned(nbytes), device)
      modifies pcbs, mem, this`intact
      ensures Valid() && (View(), bytes) == KernelSpec.Read(old(View()), fd, buf, nbytes, device)
    {
      hide SetFile, NamedReadCount, ReadBytes, DiskOk, AllPresent, Spares, StoreAll, Lookup;
      if fd < 0 || fd > 7 || buf == 0 {
        return -1;
      }
      var f := pcbs[counter - 1].files[fd];
      if !f.used {
        return -1;
      }
      bytes := CallRead(f, buf, Unsigned(nbytes), device);
      intact := intact && Spares(buf, |ReadBytes(fs.image, f, Unsigned(nbytes), device)|);
      assert View() == old(View()).(mem := mem[..], intact := intact);
      SetFileOfMem(old(View()), mem[..], intact, fd, f.(position := (f.position + bytes) % WRAP));
      SetFd(fd, f.(position := (f.position + bytes) % WRAP));
    }

    /** The descriptor has a read operation, and no store to the buffer faults. */
    ghost predicate Readable(f: Fd, buf: nat, n: nat, device: Answer)
      requires Valid() && 1 <= counter
      reads this, pages, pages.dirs, pages.shell, pages.video, fs, pcbs, mem
    {
      && f.ops !in {NoOps, StdoutOps} && (f.ops == FileOps ==> 0 !in f.name)
      && AllPresent(buf, |ReadBytes(fs.image, f, n, device)|, HasVideo(View().tables, counter))
    }

    /** The indirect call of the read operation. */
    method CallRead(f: Fd, buf: nat, n: nat, device: Answer) returns (bytes: int)
      requires Valid() && 1 <= counter && Readable(f, buf, n, device)
      modifies mem
      ensures Valid() && bytes == ReadResult(fs.image, f, n, device)
      ensures mem[..] == StoreAll(old(mem[..]), Linear(counter, buf), ReadBytes(fs.image, f, n, device))
    {
      hide NamedBytes, NamedReadCount, FindFrom, FileLength, StoreAll, DiskOk, AllPresent, HasRoom;
      ghost var video := HasVideo(View().tables, counter);
      if f.ops == FileOps {
        RoomForRead(fs.image, f, counter, buf, n, device, video);
        bytes := fs.FileRead(mem, Linear(counter, buf), f.position, n, f.name);
      } else {
        PresentFits(counter, buf, |device.data|, video);
        bytes := StoreAnswer(buf, device);
      }
    }

    /** A device's bytes go to the program's memory. */
    method StoreAnswer(la: nat, device: Answer) returns (bytes: int)
      requires mem.Length == MEMORY && 1 <= counter <= PROCESSES && Linear(counter, la).Fits(|device.data|, MEMORY)
      modifies mem
      ensures bytes == device.value
      ensures mem[..] == StoreAll(old(mem[..]), Linear(counter, la), device.data)
    {
      hide StoreAll;
      StoreNothing(mem[..], Linear(counter, la));
      var i := 0;
      while i < |device.data|
        invariant 0 <= i <= |device.data|
        invariant mem[..] == StoreAll(old(mem[..]), Linear(counter, la), device.data[..i])
      {
        assert Linear(counter, la).Place(i) < MEMORY;
        StoreByte(Linear(counter, la), i, device.data[i], old(mem[..]), device.data[..i]);
        assert device.data[..i + 1] == device.data[..i] + [device.data[i]];
        i := i + 1;
      }
      assert device.data[..i] == device.data;
      return device.value;
    }

    /** write(): `data` is what the program's buffer holds. */
    method Write(fd: int, buf: nat, nbytes: int, data: seq<Byte>, devices: Devices) returns (bytes: int)
      requires Valid() && 1 <= counter && |data| == (if nbytes < 0 then 0 else nbytes)
      requires 0 <= fd <= 7 && buf != 0 && pcbs[counter - 1].files[fd].used ==>
        Writable(pcbs[counter - 1].files[fd], data, devices)
      modifies mem, this`intact
      ensures Valid() && (View(), bytes) == KernelSpec.Write(old(View()), fd, buf, nbytes, data, devices)
    {
      hide StoreAll, DiskOk;
      if fd < 0 || fd > 7 || buf == 0 {
        return -1;
      }
      var f := pcbs[counter - 1].files[fd];
      if !f.used {
        return -1;
      }
      match f.ops {
        case StdoutOps => bytes := TerminalWrite(data, devices);
        case RtcOps => bytes := if nbytes != 4 then -1 else devices.clock;
        case _ => bytes := -1;
      }
    }

    /** The descriptor has a write operation, and no store to the line buffer or the screen faults. */
    predicate Writable(f: Fd, data: seq<Byte>, devices: Devices) {
      && f.ops !in {NoOps, StdinOps}
      && (f.ops == StdoutOps ==> |devices.screen| == SCREEN_SIZE && devices.lineBuffer + |data| <= MEMORY)
    }

    /** terminal_write(), as far as it reaches beyond the keyboard's own data: the bytes for which the line
        buffer has no room, and the screen. */
    method TerminalWrite(data: seq<Byte>, devices: Devices) returns (written: int)
      requires Valid() && |devices.screen| == SCREEN_SIZE && devices.lineBuffer + |data| <= MEMORY
      modifies mem, this`intact
      ensures Valid() && written == devices.typed + |data|
      ensures View() == Shown(Overrun(old(View()), data, devices.lineBuffer), devices.screen)
    {
      hide StoreAll, DiskOk;
      ghost var was, dest := mem[..], Flat(devices.lineBuffer + LINE_BUFFER_SIZE);
      StoreNothing(was, dest);
      var count := devices.typed;
      var i := 0;
      while i < |data|
        modifies mem
        invariant 0 <= i <= |data| && count == devices.typed + i
        invariant mem[..] == StoreAll(was, dest, if i <= LINE_BUFFER_SIZE then [] else data[LINE_BUFFER_SIZE..i])
      {
        if i >= LINE_BUFFER_SIZE {
          StoreByte(Flat(devices.lineBuffer + LINE_BUFFER_SIZE), i - LINE_BUFFER_SIZE, data[i], was,
                    data[LINE_BUFFER_SIZE..i]);
          assert data[LINE_BUFFER_SIZE..i + 1] == data[LINE_BUFFER_SIZE..i] + [data[i]];
        }
        count := count + 1;
        i := i + 1;
      }
      assert |data| > LINE_BUFFER_SIZE ==> data[LINE_BUFFER_SIZE..i] == data[LINE_BUFFER_SIZE..];
      intact := intact && |data| <= LINE_BUFFER_SIZE;
      assert View() == Overrun(old(View()), data, devices.lineBuffer);
      Show(devices.screen);
      return count;
    }

    /** The console has printed, and the screen is this. */
    method Show(screen: seq<Byte>)
      requires mem.Length == MEMORY && |screen| == SCREEN_SIZE
      modifies mem
      ensures mem[..] == StoreAll(old(mem[..]), Flat(VIDEO), screen)
    {
      hide StoreAll;
      StoreNothing(mem[..], Flat(VIDEO));
      var i := 0;
      while i < SCREEN_SIZE
        invariant 0 <= i <= SCREEN_SIZE && mem[..] == StoreAll(old(mem[..]), Flat(VIDEO), screen[..i])
      {
        StoreByte(Flat(VIDEO), i, screen[i], old(mem[..]), screen[..i]);
        assert screen[..i + 1] == screen[..i] + [screen[i]];
        i := i + 1;
      }
      assert screen[..i] == screen;
    }
  }
}
